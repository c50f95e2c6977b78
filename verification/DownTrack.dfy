/** The stream sent to one subscriber: source packets are renumbered so that mutes, re-binds and changes
    of the source leave no trace in the sequence numbers and timestamps the subscriber sees. */
module DownTracks {
  import opened Numbers
  import opened Wrappers

  /** An RTP packet; `other` stands for the header fields that are passed through. */
  datatype Rtp = Rtp(payloadType: u8, sequenceNumber: u16, timestamp: u32, ssrc: u32, other: seq<u8>, payload: seq<u8>)

  /** q is p under other numbers, with the payload and the header fields passed through unchanged. */
  ghost predicate Carries(q: Rtp, p: Rtp, payloadType: u8, sn: u16, ts: u32, ssrc: u32) {
    && q.payloadType == payloadType && q.sequenceNumber == sn && q.timestamp == ts && q.ssrc == ssrc
    && q.other == p.other && q.payload == p.payload
  }

  /** One packet more has been written: p under these numbers. */
  ghost predicate Wrote(before: seq<Rtp>, after: seq<Rtp>, p: Rtp, payloadType: u8, sn: u16, ts: u32, ssrc: u32) {
    |after| == |before| + 1 && after[..|before|] == before && Carries(after[|before|], p, payloadType, sn, ts, ssrc)
  }

  datatype ExtPacket = ExtPacket(head: bool, keyFrame: bool, arrival: int, rtp: Rtp)

  datatype TrackType = Simple | Simulcast

  datatype TrackState = TrackState(
    enabled: bool, bound: bool, reSync: bool,
    snOffset: u16, tsOffset: u32, lastSn: u16, lastTs: u32, lastSsrc: u32, lTsCalc: int)

  /** A track before it is bound; `ssrc` is the source it has been set to. */
  function Fresh(ssrc: u32): TrackState { TrackState(false, false, false, 0, 0, 0, 0, ssrc, 0) }

  /** A forwarded packet: the source packet, the numbers it was sent under, and whether it is the first one
      sent since a mute or a bind. */
  datatype Sent = Sent(source: ExtPacket, sn: u16, ts: u32, resynced: bool)

  datatype Outcome = Dropped | KeyFrameWanted | Forwarded(sent: Sent)

  // ---------------------------------------------------------------- one packet

  /** write_simple_rtp */
  function SimpleStep(s: TrackState, video: bool, p: ExtPacket): (TrackState, Outcome) {
    if s.reSync && video && !p.keyFrame then (s, KeyFrameWanted)
    else
      var t := if !s.reSync then s else
        s.(snOffset := if s.lastSn != 0 then Sub16(p.rtp.sequenceNumber - s.lastSn, 1) else s.snOffset,
           tsOffset := if s.lastSn != 0 then Sub32(p.rtp.timestamp - s.lastTs, 1) else s.tsOffset,
           lastSsrc := p.rtp.ssrc,
           reSync := false);
      Forward(t, p, s.reSync)
  }

  /** The renumbering at the end of both paths. */
  function Forward(t: TrackState, p: ExtPacket, resynced: bool): (TrackState, Outcome) {
    var sn, ts := Sub16(p.rtp.sequenceNumber, t.snOffset), Sub32(p.rtp.timestamp, t.tsOffset);
    (if p.head then t.(lastSn := sn, lastTs := ts) else t, Forwarded(Sent(p, sn, ts, resynced)))
  }

  /** The timestamp step for the time between two arrivals in nanoseconds: saturating conversion to u32
      milliseconds, wrapping multiplication, and at least 1. TicksValue says what comes out. */
  function Ticks(elapsed: int): (td: nat)
    ensures 1 <= td < 0x1_0000_0000
  {
    var ms := if elapsed < 0 then 0 else if elapsed / 1000000 > 0xffff_ffff then 0xffff_ffff else elapsed / 1000000;
    var td := ms * 90 % 0x1_0000_0000 / 1000;
    if td == 0 then 1 else td
  }

  /** write_simulcast_rtp */
  function SimulcastStep(s: TrackState, p: ExtPacket, onLayer: bool): (TrackState, Outcome) {
    if !onLayer then (s, Dropped)
    else if s.reSync && !p.keyFrame then (s, KeyFrameWanted)
    else
      var t := if s.reSync then s.(reSync := false, lTsCalc := if s.lTsCalc != 0 then p.arrival else 0) else s;
      if t.lTsCalc != 0 && s.lastSsrc != p.rtp.ssrc then
        var td := Ticks(p.arrival - t.lTsCalc);
        var u := t.(lastSsrc := p.rtp.ssrc,
                    tsOffset := Sub32(p.rtp.timestamp, s.lastTs + td),
                    snOffset := Sub16(p.rtp.sequenceNumber - s.lastSn, 1),
                    lTsCalc := p.arrival);
        Forward(u, p, s.reSync)
      else if t.lTsCalc == 0 then
        Forward(t.(lastTs := p.rtp.timestamp, lastSn := p.rtp.sequenceNumber, lTsCalc := p.arrival), p, s.reSync)
      else Forward(t.(lTsCalc := p.arrival), p, s.reSync)
  }

  /** write_rtp */
  function WriteStep(s: TrackState, kind: TrackType, video: bool, p: ExtPacket, onLayer: bool): (TrackState, Outcome) {
    if !s.enabled || !s.bound then (s, Dropped)
    else if kind == Simple then SimpleStep(s, video, p)
    else SimulcastStep(s, p, onLayer)
  }

  function MuteStep(s: TrackState, val: bool): TrackState {
    if s.enabled != val then s
    else s.(enabled := !val, reSync := if val then true else s.reSync)
  }

  function BindStep(s: TrackState): TrackState { s.(reSync := true, enabled := true, bound := true) }

  function UnbindStep(s: TrackState): TrackState { s.(bound := false) }

  // ---------------------------------------------------------------- whole runs

  datatype Event = Packet(p: ExtPacket, onLayer: bool) | Mute(val: bool) | Bind | Unbind

  /** The packets sent, and those a key frame was asked for in place of. */
  datatype History = History(state: TrackState, log: seq<Sent>, refused: seq<ExtPacket>)

  function Next(h: History, kind: TrackType, video: bool, e: Event): History {
    match e
    case Packet(p, onLayer) =>
      var (s, o) := WriteStep(h.state, kind, video, p, onLayer);
      History(s, if o.Forwarded? then h.log + [o.sent] else h.log, if o.KeyFrameWanted? then h.refused + [p] else h.refused)
    case Mute(val) => h.(state := MuteStep(h.state, val))
    case Bind => h.(state := BindStep(h.state))
    case Unbind => h.(state := UnbindStep(h.state))
  }

  /** A run of a track that was set to the source `ssrc` when it was added to the receiver. */
  function Run(kind: TrackType, video: bool, ssrc: u32, events: seq<Event>): History {
    if events == [] then History(Fresh(ssrc), [], [])
    else Next(Run(kind, video, ssrc, events[..|events| - 1]), kind, video, events[|events| - 1])
  }

  // ---------------------------------------------------------------- what a run promises

  /** The arrival before e is known: there is one, and neither it nor, across a re-sync, e itself was at
      time 0, which stands for "no packet yet". */
  predicate Known(before: seq<Sent>, e: Sent) {
    before != [] && before[|before| - 1].source.arrival != 0 && (e.resynced ==> e.source.arrival != 0)
  }

  /** The source a simulcast track follows: that of the last packet whose predecessor's arrival was known. */
  function Followed(ssrc: u32, log: seq<Sent>): u32 {
    if log == [] then ssrc
    else
      var init, e := log[..|log| - 1], log[|log| - 1];
      if Known(init, e) then e.source.rtp.ssrc else Followed(ssrc, init)
  }

  /** The last reference: a head packet, or a simulcast packet before which no arrival was known. */
  function Reference(kind: TrackType, log: seq<Sent>): Option<Sent> {
    if log == [] then None
    else
      var init, e := log[..|log| - 1], log[|log| - 1];
      if e.source.head || (kind == Simulcast && !Known(init, e)) then Some(e) else Reference(kind, init)
  }

  /** Where the offsets are set anew: on a simple track at a re-sync, unless no head packet was sent or the
      last one was sent under number 0; on a simulcast track at a known change of the source. */
  predicate Renumbers(kind: TrackType, ssrc: u32, before: seq<Sent>, e: Sent) {
    match kind
    case Simple => e.resynced && Reference(Simple, before).Some? && Reference(Simple, before).value.sn != 0
    case Simulcast => Known(before, e) && e.source.rtp.ssrc != Followed(ssrc, before)
  }

  /** The timestamp step at a renumbering: one tick, or the time since the last arrival, from the arrival
      itself across a re-sync. */
  function StepOf(kind: TrackType, before: seq<Sent>, e: Sent): nat
    requires before != []
  {
    if kind == Simple then 1
    else Ticks(e.source.arrival - if e.resynced then e.source.arrival else before[|before| - 1].source.arrival)
  }

  /** e follows number and timestamp by one and by the step. */
  predicate FollowsOn(e: Sent, sn: u16, ts: u32, step: nat) {
    e.sn == (sn + 1) as int % 0x1_0000 && e.ts == (ts + step) as int % 0x1_0000_0000
  }

  /** e is as far from the packet sent before it as at the source; the first packet keeps its numbers. */
  predicate KeepsDistance(before: seq<Sent>, e: Sent) {
    if before == [] then e.sn == e.source.rtp.sequenceNumber && e.ts == e.source.rtp.timestamp
    else
      var l := before[|before| - 1];
      && Sub16(e.sn, l.sn) == Sub16(e.source.rtp.sequenceNumber, l.source.rtp.sequenceNumber)
      && Sub32(e.ts, l.ts) == Sub32(e.source.rtp.timestamp, l.source.rtp.timestamp)
  }

  /** The stream goes on at e: where the offsets are set anew, e follows the last reference; everywhere
      else it keeps its distance. */
  predicate ContinuousAt(kind: TrackType, ssrc: u32, before: seq<Sent>, e: Sent) {
    if Renumbers(kind, ssrc, before, e) then
      var a := Reference(kind, before);
      before != [] && a.Some? && FollowsOn(e, a.value.sn, a.value.ts, StepOf(kind, before, e))
    else KeepsDistance(before, e)
  }

  ghost predicate Continuous(kind: TrackType, ssrc: u32, log: seq<Sent>) {
    forall j :: 0 <= j < |log| ==> ContinuousAt(kind, ssrc, log[..j], log[j])
  }

  /** A reference that is not a head packet leaves its source numbers as the last ones sent. */
  predicate Misanchored(a: Sent) {
    !a.source.head && (a.sn != a.source.rtp.sequenceNumber || a.ts != a.source.rtp.timestamp)
  }

  function LastSn(a: Option<Sent>): u16 {
    if a.None? then 0 else if a.value.source.head then a.value.sn else a.value.source.rtp.sequenceNumber
  }

  function LastTs(a: Option<Sent>): u32 {
    if a.None? then 0 else if a.value.source.head then a.value.ts else a.value.source.rtp.timestamp
  }

  /** The numbers of e, whatever came before: where the offsets are set anew, e follows what was kept of the
      last reference, and that is the reference unless it is misanchored. */
  predicate NumberedAt(kind: TrackType, ssrc: u32, before: seq<Sent>, e: Sent) {
    if Renumbers(kind, ssrc, before, e) then
      var a := Reference(kind, before);
      && before != [] && a.Some? && FollowsOn(e, LastSn(a), LastTs(a), StepOf(kind, before, e))
      && (ContinuousAt(kind, ssrc, before, e) <==> !Misanchored(a.value))
    else KeepsDistance(before, e)
  }

  ghost predicate Numbered(kind: TrackType, ssrc: u32, log: seq<Sent>) {
    forall j :: 0 <= j < |log| ==> NumberedAt(kind, ssrc, log[..j], log[j])
  }

  // ---------------------------------------------------------------- what every step keeps

  /** The offsets are those of the last packet sent, the last numbers what was kept of the last reference,
      and a simulcast track knows its source and the last arrival. */
  predicate InStep(kind: TrackType, ssrc: u32, s: TrackState, log: seq<Sent>) {
    && OffsetsOf(s.snOffset, s.tsOffset, log)
    && s.lastSn == LastSn(Reference(kind, log)) && s.lastTs == LastTs(Reference(kind, log))
    && (kind == Simulcast ==> s.lTsCalc == LastArrival(log) && s.lastSsrc == Followed(ssrc, log))
  }

  predicate OffsetsOf(snOffset: u16, tsOffset: u32, log: seq<Sent>) {
    if log == [] then snOffset == 0 && tsOffset == 0
    else
      var l := log[|log| - 1];
      l.sn == Sub16(l.source.rtp.sequenceNumber, snOffset) && l.ts == Sub32(l.source.rtp.timestamp, tsOffset)
  }

  function LastArrival(log: seq<Sent>): int { if log == [] then 0 else log[|log| - 1].source.arrival }

  lemma {:induction false} LogStep(kind: TrackType, ssrc: u32, log: seq<Sent>, e: Sent)
    requires Numbered(kind, ssrc, log) && NumberedAt(kind, ssrc, log, e)
    ensures Numbered(kind, ssrc, log + [e])
  {
    hide NumberedAt;
    var all := log + [e];
    forall j | 0 <= j < |all| ensures NumberedAt(kind, ssrc, all[..j], all[j]) {
      assert all[..j] == log[..j] && (j < |log| ==> all[j] == log[j]) && log[..|log|] == log;
    }
  }

  lemma {:induction false} RenumberExact(x: int, last: int, td: int)
    ensures Sub16(x, Sub16(x - last, 1)) == (last + 1) % 0x1_0000
    ensures Sub32(x, Sub32(x, last + td)) == (last + td) % 0x1_0000_0000
    ensures Sub32(x, Sub32(x - last, 1)) == (last + 1) % 0x1_0000_0000
  {
    SubMod(x, x - last - 1, 0x1_0000);
    SubMod(x, x - last - 1, 0x1_0000_0000);
    SubMod(x, x - (last + td), 0x1_0000_0000);
  }

  lemma {:induction false} SubMod(x: int, y: int, m: nat)
    requires m == 0x1_0000 || m == 0x1_0000_0000
    ensures (x - y % m) % m == (x - y) % m
  {
    ModDifference(x, y % m, m);
    ModDifference(x, y, m);
  }

  lemma {:induction false} SameOffset(x: int, y: int, offset: int)
    ensures Sub16(Sub16(x, offset), Sub16(y, offset)) == Sub16(x, y)
    ensures Sub32(Sub32(x, offset), Sub32(y, offset)) == Sub32(x, y)
  {
    ModDifference(x - offset, y - offset, 0x1_0000);
    ModDifference(x - offset, y - offset, 0x1_0000_0000);
  }

  lemma {:induction false} ModDifference(a: int, b: int, m: nat)
    requires m == 0x1_0000 || m == 0x1_0000_0000
    ensures (a % m - b % m) % m == (a - b) % m
  {
  }

  lemma {:induction false} NoOffset(x: u16, y: u32)
    ensures Sub16(x, 0) == x && Sub32(y, 0) == y
  {
  }

  /** A packet sent with the offsets of the packet before it keeps its distance. */
  lemma {:induction false} SameOffsets(log: seq<Sent>, e: Sent, snOffset: u16, tsOffset: u32)
    requires OffsetsOf(snOffset, tsOffset, log)
    requires e.sn == Sub16(e.source.rtp.sequenceNumber, snOffset) && e.ts == Sub32(e.source.rtp.timestamp, tsOffset)
    ensures KeepsDistance(log, e) && OffsetsOf(snOffset, tsOffset, log + [e])
  {
    hide Sub16, Sub32;
    var all := log + [e];
    assert all[|log|] == e;
    if log == [] {
      NoOffset(e.source.rtp.sequenceNumber, e.source.rtp.timestamp);
    } else {
      var l := log[|log| - 1];
      SameOffset(e.source.rtp.sequenceNumber, l.source.rtp.sequenceNumber, snOffset);
      SameOffset(e.source.rtp.timestamp, l.source.rtp.timestamp, tsOffset);
    }
  }

  /** Following what was kept of a reference is following the reference exactly if it is not misanchored. */
  lemma {:induction false} FollowsReference(e: Sent, a: Sent, step: nat)
    requires FollowsOn(e, LastSn(Some(a)), LastTs(Some(a)), step)
    ensures FollowsOn(e, a.sn, a.ts, step) <==> !Misanchored(a)
  {
    SameSum(LastSn(Some(a)), a.sn, LastTs(Some(a)), a.ts, step);
  }

  lemma {:induction false} SameSum(x: u16, x': u16, y: u32, y': u32, step: nat)
    ensures (x + 1) as int % 0x1_0000 == (x' + 1) as int % 0x1_0000 <==> x == x'
    ensures (y + step) as int % 0x1_0000_0000 == (y' + step) as int % 0x1_0000_0000 <==> y == y'
  {
  }

  /** After e has been sent: what the track is left with. */
  lemma {:induction false} AfterSent(kind: TrackType, ssrc: u32, s: TrackState, log: seq<Sent>, u: TrackState, e: Sent)
    requires InStep(kind, ssrc, s, log)
    requires OffsetsOf(u.snOffset, u.tsOffset, log + [e])
    requires if e.source.head then u.lastSn == e.sn && u.lastTs == e.ts
             else if kind == Simulcast && !Known(log, e) then u.lastSn == e.source.rtp.sequenceNumber && u.lastTs == e.source.rtp.timestamp
             else u.lastSn == s.lastSn && u.lastTs == s.lastTs
    requires kind == Simulcast ==> u.lTsCalc == e.source.arrival && u.lastSsrc == if Known(log, e) then e.source.rtp.ssrc else s.lastSsrc
    ensures InStep(kind, ssrc, u, log + [e])
  {
    hide OffsetsOf, Known;
    assert (log + [e])[..|log|] == log;
  }

  /** Where the offsets are set anew. */
  lemma {:induction false} NumberedAnew(kind: TrackType, ssrc: u32, s: TrackState, log: seq<Sent>, e: Sent)
    requires InStep(kind, ssrc, s, log) && Renumbers(kind, ssrc, log, e) && log != [] && Reference(kind, log).Some?
    requires FollowsOn(e, s.lastSn, s.lastTs, StepOf(kind, log, e))
    ensures NumberedAt(kind, ssrc, log, e)
  {
    hide Renumbers, FollowsOn, Misanchored, OffsetsOf, LastSn, LastTs, StepOf;
    FollowsReference(e, Reference(kind, log).value, StepOf(kind, log, e));
  }

  lemma {:induction false} SimulcastReference(log: seq<Sent>)
    requires log != []
    ensures Reference(Simulcast, log).Some?
  {
    if |log| > 1 { SimulcastReference(log[..|log| - 1]); }
  }

  lemma {:induction false} SimpleReference(log: seq<Sent>)
    ensures Reference(Simple, log).Some? ==> log != [] && Reference(Simple, log).value.source.head
  {
    if log != [] { SimpleReference(log[..|log| - 1]); }
  }

  lemma {:induction false} SimpleInStep(ssrc: u32, s: TrackState, log: seq<Sent>, video: bool, p: ExtPacket)
    requires InStep(Simple, ssrc, s, log)
    ensures var (u, o) := SimpleStep(s, video, p);
            if o.Forwarded? then NumberedAt(Simple, ssrc, log, o.sent) && InStep(Simple, ssrc, u, log + [o.sent])
            else u == s
  {
    hide Sub16, Sub32, KeepsDistance, OffsetsOf, Reference, NumberedAt;
    var (u, o) := SimpleStep(s, video, p);
    if o.Forwarded? {
      SimpleReference(log);
      if s.reSync && s.lastSn != 0 {
        RenumberExact(p.rtp.sequenceNumber, s.lastSn, 1);
        RenumberExact(p.rtp.timestamp, s.lastTs, 1);
        NumberedAnew(Simple, ssrc, s, log, o.sent);
        NewOffsets(log, o.sent, u.snOffset, u.tsOffset);
      } else {
        SameOffsets(log, o.sent, s.snOffset, s.tsOffset);
        NotRenumbered(Simple, ssrc, log, o.sent);
      }
      AfterSent(Simple, ssrc, s, log, u, o.sent);
    }
  }

  lemma {:induction false} NewOffsets(log: seq<Sent>, e: Sent, snOffset: u16, tsOffset: u32)
    requires e.sn == Sub16(e.source.rtp.sequenceNumber, snOffset) && e.ts == Sub32(e.source.rtp.timestamp, tsOffset)
    ensures OffsetsOf(snOffset, tsOffset, log + [e])
  {
  }

  lemma {:induction false} NotRenumbered(kind: TrackType, ssrc: u32, log: seq<Sent>, e: Sent)
    requires !Renumbers(kind, ssrc, log, e) && KeepsDistance(log, e)
    ensures NumberedAt(kind, ssrc, log, e)
  {
  }

  lemma {:induction false} SimulcastInStep(ssrc: u32, s: TrackState, log: seq<Sent>, p: ExtPacket, onLayer: bool)
    requires InStep(Simulcast, ssrc, s, log)
    ensures var (u, o) := SimulcastStep(s, p, onLayer);
            if o.Forwarded? then NumberedAt(Simulcast, ssrc, log, o.sent) && InStep(Simulcast, ssrc, u, log + [o.sent])
            else u == s
  {
    hide Sub16, Sub32, KeepsDistance, OffsetsOf, Reference, NumberedAt, Ticks, Followed;
    var (u, o) := SimulcastStep(s, p, onLayer);
    if o.Forwarded? {
      var e := o.sent;
      var last := if s.reSync && s.lTsCalc != 0 then p.arrival else s.lTsCalc;
      assert Known(log, e) <==> last != 0;
      if last != 0 && s.lastSsrc != p.rtp.ssrc {
        SimulcastReference(log);
        RenumberExact(p.rtp.sequenceNumber, s.lastSn, StepOf(Simulcast, log, e));
        RenumberExact(p.rtp.timestamp, s.lastTs, StepOf(Simulcast, log, e));
        NumberedAnew(Simulcast, ssrc, s, log, e);
        NewOffsets(log, e, u.snOffset, u.tsOffset);
      } else {
        SameOffsets(log, e, s.snOffset, s.tsOffset);
        NotRenumbered(Simulcast, ssrc, log, e);
      }
      AfterSent(Simulcast, ssrc, s, log, u, e);
    }
  }

  lemma {:induction false} NothingSent(kind: TrackType, ssrc: u32)
    ensures Numbered(kind, ssrc, []) && InStep(kind, ssrc, Fresh(ssrc), [])
  {}

  /** Mutes and binds touch nothing but the gates. */
  lemma {:induction false} GatesKeep(kind: TrackType, ssrc: u32, s: TrackState, log: seq<Sent>, t: TrackState)
    requires InStep(kind, ssrc, s, log) && t == s.(enabled := t.enabled, bound := t.bound, reSync := t.reSync)
    ensures InStep(kind, ssrc, t, log)
  {}

  /** In every run of packets, mutes, binds and unbinds, every packet sent has the numbers NumberedAt says. */
  lemma {:induction false} RunNumbered(kind: TrackType, video: bool, ssrc: u32, events: seq<Event>)
    ensures var h := Run(kind, video, ssrc, events); InStep(kind, ssrc, h.state, h.log) && Numbered(kind, ssrc, h.log)
  {
    hide SimpleStep, SimulcastStep, Numbered, NumberedAt, InStep;
    if events == [] {
      NothingSent(kind, ssrc);
    } else {
      var init, e := events[..|events| - 1], events[|events| - 1];
      RunNumbered(kind, video, ssrc, init);
      var h := Run(kind, video, ssrc, init);
      if e.Packet? && h.state.enabled && h.state.bound {
        if kind == Simple {
          SimpleInStep(ssrc, h.state, h.log, video, e.p);
        } else {
          SimulcastInStep(ssrc, h.state, h.log, e.p, e.onLayer);
        }
        var o := WriteStep(h.state, kind, video, e.p, e.onLayer).1;
        if o.Forwarded? { LogStep(kind, ssrc, h.log, o.sent); }
      } else {
        GatesKeep(kind, ssrc, h.state, h.log, Next(h, kind, video, e).state);
      }
    }
  }

  /** The stream of any run is continuous exactly when the offsets are never set anew behind a misanchored
      reference. */
  lemma {:induction false} RunContinuousIff(kind: TrackType, video: bool, ssrc: u32, events: seq<Event>)
    ensures var log := Run(kind, video, ssrc, events).log;
            Continuous(kind, ssrc, log)
            <==> forall j :: 0 <= j < |log| && Renumbers(kind, ssrc, log[..j], log[j]) ==>
                   Reference(kind, log[..j]).Some? && !Misanchored(Reference(kind, log[..j]).value)
  {
    hide Renumbers, Reference, Misanchored, KeepsDistance, FollowsOn, StepOf;
    RunNumbered(kind, video, ssrc, events);
    var log := Run(kind, video, ssrc, events).log;
    forall j | 0 <= j < |log|
      ensures ContinuousAt(kind, ssrc, log[..j], log[j])
              <==> (Renumbers(kind, ssrc, log[..j], log[j]) ==>
                      Reference(kind, log[..j]).Some? && !Misanchored(Reference(kind, log[..j]).value))
    {
      assert NumberedAt(kind, ssrc, log[..j], log[j]);
    }
  }

  /** A simple track always is: its references are head packets. */
  lemma {:induction false} SimpleContinuous(video: bool, ssrc: u32, events: seq<Event>)
    ensures Continuous(Simple, ssrc, Run(Simple, video, ssrc, events).log)
  {
    hide Run, Continuous;
    RunContinuousIff(Simple, video, ssrc, events);
    var log := Run(Simple, video, ssrc, events).log;
    forall j | 0 <= j < |log| && Renumbers(Simple, ssrc, log[..j], log[j])
      ensures Reference(Simple, log[..j]).Some? && !Misanchored(Reference(Simple, log[..j]).value)
    {
      SimpleReference(log[..j]);
    }
  }

  // ---------------------------------------------------------------- without arrivals at time 0

  ghost predicate Timed(log: seq<Sent>) {
    forall j :: 0 <= j < |log| ==> log[j].source.arrival != 0
  }

  lemma {:induction false} RunTimed(kind: TrackType, video: bool, ssrc: u32, events: seq<Event>)
    requires forall i :: 0 <= i < |events| && events[i].Packet? ==> events[i].p.arrival != 0
    ensures Timed(Run(kind, video, ssrc, events).log)
  {
    if events != [] { RunTimed(kind, video, ssrc, events[..|events| - 1]); }
  }

  /** Then the only reference that may not be a head packet is the first packet sent. */
  lemma {:induction false} TimedReference(log: seq<Sent>)
    requires Timed(log) && log != []
    ensures Reference(Simulcast, log).Some?
    ensures var a := Reference(Simulcast, log).value; a.source.head || a == log[0]
  {
    if |log| > 1 { TimedReference(log[..|log| - 1]); }
  }

  /** And a simulcast track set to the source of its first packet follows the source of the last one. */
  lemma {:induction false} TimedFollowed(ssrc: u32, log: seq<Sent>)
    requires Timed(log) && (log != [] ==> log[0].source.rtp.ssrc == ssrc)
    ensures Followed(ssrc, log) == if log == [] then ssrc else log[|log| - 1].source.rtp.ssrc
  {
    if log != [] { TimedFollowed(ssrc, log[..|log| - 1]); }
  }

  /** The stream of a simulcast track is continuous, and the offsets are set anew exactly where the source
      changes from one packet sent to the next. */
  lemma {:induction false} TimedContinuous(video: bool, ssrc: u32, events: seq<Event>)
    requires forall i :: 0 <= i < |events| && events[i].Packet? ==> events[i].p.arrival != 0
    ensures var log := Run(Simulcast, video, ssrc, events).log;
            && Continuous(Simulcast, ssrc, log)
            && (log != [] && log[0].source.rtp.ssrc == ssrc ==>
                  forall j :: 0 <= j < |log| ==>
                    (Renumbers(Simulcast, ssrc, log[..j], log[j]) <==> j > 0 && log[j].source.rtp.ssrc != log[j - 1].source.rtp.ssrc))
  {
    hide Run, Continuous, Reference, Followed;
    RunContinuousIff(Simulcast, video, ssrc, events);
    RunNumbered(Simulcast, video, ssrc, events);
    RunTimed(Simulcast, video, ssrc, events);
    var log := Run(Simulcast, video, ssrc, events).log;
    forall j | 0 <= j < |log| && Renumbers(Simulcast, ssrc, log[..j], log[j])
      ensures Reference(Simulcast, log[..j]).Some? && !Misanchored(Reference(Simulcast, log[..j]).value)
    {
      TimedReference(log[..j]);
      assert NumberedAt(Simulcast, ssrc, log[..0], log[0]);
      assert log[..j][0] == log[0];
    }
    if log != [] && log[0].source.rtp.ssrc == ssrc {
      forall j | 0 <= j < |log|
        ensures Renumbers(Simulcast, ssrc, log[..j], log[j]) <==> j > 0 && log[j].source.rtp.ssrc != log[j - 1].source.rtp.ssrc
      {
        TimedFollowed(ssrc, log[..j]);
      }
    }
  }

  // ---------------------------------------------------------------- the exceptions

  /** A simple track re-synchronizes by exactly one number and tick whenever the last number sent is not
      0; when it is 0, the old offset stays in force and the next number is one on only by coincidence. */
  lemma {:induction false} ResyncByOneIff(s: TrackState, video: bool, p: ExtPacket)
    requires s.reSync && (video ==> p.keyFrame)
    ensures var o := SimpleStep(s, video, p).1;
            o.Forwarded? &&
            (o.sent.sn == (s.lastSn + 1) % 0x1_0000
             <==> s.lastSn != 0 || Sub16(p.rtp.sequenceNumber, s.snOffset) == 1)
  {
    RenumberExact(p.rtp.sequenceNumber, s.lastSn, 1);
  }

  /** With the source at number 0 when the track is muted, the re-sync leaves the source's own gap. */
  lemma {:induction false} ResyncGapAtZero(zero: ExtPacket, later: ExtPacket)
    requires zero.head && zero.keyFrame && zero.rtp.sequenceNumber == 0
    requires later.keyFrame && later.rtp.sequenceNumber == 500
    ensures var log := Run(Simple, true, 0, [Bind, Packet(zero, true), Mute(true), Mute(false), Packet(later, true)]).log;
            |log| == 2 && log[0].sn == 0 && log[1].resynced && log[1].sn == 500
  {
    hide Run;
    var e1 := [Bind];
    var e2 := e1 + [Packet(zero, true)];
    var e3 := e2 + [Mute(true)];
    var e4 := e3 + [Mute(false)];
    assert e1 == [] + [Bind];
    NothingRun(Simple, 0);
    RunStep(Simple, 0, [], Bind);
    RunStep(Simple, 0, e1, Packet(zero, true));
    RunStep(Simple, 0, e2, Mute(true));
    RunStep(Simple, 0, e3, Mute(false));
    RunStep(Simple, 0, e4, Packet(later, true));
    assert e4 + [Packet(later, true)] == [Bind, Packet(zero, true), Mute(true), Mute(false), Packet(later, true)];
    assert Run(Simple, true, 0, e2).log == [Sent(zero, 0, zero.rtp.timestamp, true)];
  }

  /** A packet at time 0 and a late one behind it: at the next change of the source the numbers sent jump
      from 102 to 502. */
  lemma {:induction false} MisanchoredRun(p1: ExtPacket, p2: ExtPacket, p3: ExtPacket, p4: ExtPacket)
    requires p1.head && p1.keyFrame && p2.head && !p3.head && p1.arrival == 5 && p2.arrival == 0 && p3.arrival == 20 && p4.arrival == 30
    requires p1.rtp.sequenceNumber == 100 && p2.rtp.sequenceNumber == 500 && p3.rtp.sequenceNumber == 501 && p4.rtp.sequenceNumber == 900
    requires p1.rtp.ssrc == 1 && p2.rtp.ssrc == 2 && p3.rtp.ssrc == 2 && p4.rtp.ssrc == 3
    ensures var log := Run(Simulcast, true, 1, [Bind, Packet(p1, true), Packet(p2, true), Packet(p3, true), Packet(p4, true)]).log;
            |log| == 4 && log[2].sn == 102 && log[3].sn == 502
  {
    hide Ticks, Run;
    SecondAtZero(p1, p2);
    var e3 := [Bind, Packet(p1, true), Packet(p2, true)];
    var h3 := Run(Simulcast, true, 1, e3);
    var h4 := Run(Simulcast, true, 1, e3 + [Packet(p3, true)]);
    RunStep(Simulcast, 1, e3, Packet(p3, true));
    assert h4.state.snOffset == 399 && h4.state.lTsCalc == 20 && h4.state.lastSsrc == 2;
    assert h4.state.lastSn == 501 && |h4.log| == 3 && h4.log[2].sn == 102;
    RunStep(Simulcast, 1, e3 + [Packet(p3, true)], Packet(p4, true));
    assert e3 + [Packet(p3, true)] + [Packet(p4, true)] == [Bind, Packet(p1, true), Packet(p2, true), Packet(p3, true), Packet(p4, true)];
  }

  lemma {:induction false} SecondAtZero(p1: ExtPacket, p2: ExtPacket)
    requires p1.head && p1.keyFrame && p2.head && p1.arrival == 5 && p2.arrival == 0
    requires p1.rtp.sequenceNumber == 100 && p2.rtp.sequenceNumber == 500 && p1.rtp.ssrc == 1 && p2.rtp.ssrc == 2
    ensures var h := Run(Simulcast, true, 1, [Bind, Packet(p1, true), Packet(p2, true)]);
            && h.state.enabled && h.state.bound && !h.state.reSync
            && h.state.snOffset == 399 && h.state.lTsCalc == 0 && h.state.lastSsrc == 2 && |h.log| == 2
  {
    hide Ticks, Run;
    NothingRun(Simulcast, 1);
    RunStep(Simulcast, 1, [], Bind);
    assert [] + [Bind] == [Bind];
    RunStep(Simulcast, 1, [Bind], Packet(p1, true));
    assert [Bind] + [Packet(p1, true)] == [Bind, Packet(p1, true)];
    var h := Run(Simulcast, true, 1, [Bind, Packet(p1, true)]);
    assert h.state.lastSn == 100 && h.state.lTsCalc == 5 && h.state.lastSsrc == 1 && |h.log| == 1;
    RunStep(Simulcast, 1, [Bind, Packet(p1, true)], Packet(p2, true));
    assert [Bind, Packet(p1, true)] + [Packet(p2, true)] == [Bind, Packet(p1, true), Packet(p2, true)];
  }

  lemma {:induction false} NothingRun(kind: TrackType, ssrc: u32)
    ensures Run(kind, true, ssrc, []) == History(Fresh(ssrc), [], [])
  {}

  lemma {:induction false} RunStep(kind: TrackType, ssrc: u32, events: seq<Event>, e: Event)
    ensures Run(kind, true, ssrc, events + [e]) == Next(Run(kind, true, ssrc, events), kind, true, e)
  {
  }

  // ---------------------------------------------------------------- the timestamp step

  /** For times up to about 13 hours the step is one for every 1000/90 ms, and at least 1: a thousandth of
      the 90 ticks a millisecond has on the clock of a video stream. */
  lemma {:induction false} TicksValue(ms: nat, rest: nat)
    requires rest < 1_000_000 && ms < 47_721_858
    ensures Ticks(1_000_000 * ms + rest) == if ms < 12 then 1 else 90 * ms / 1000
    ensures 1000 * Ticks(1_000_000 * ms + rest) <= 90 * ms + 1000
  {
    assert (1_000_000 * ms + rest) / 1_000_000 == ms;
  }

  // ---------------------------------------------------------------- gates

  /** While a re-sync is pending, a video packet that is not a key frame is never forwarded: in any run,
      the packets sent across a re-sync are key frames, and so are those of every simulcast track. */
  lemma {:induction false} ResyncOnKeyFrame(kind: TrackType, video: bool, ssrc: u32, events: seq<Event>)
    ensures forall j :: 0 <= j < |Run(kind, video, ssrc, events).log| ==>
              var e := Run(kind, video, ssrc, events).log[j];
              e.resynced && (video || kind == Simulcast) ==> e.source.keyFrame
  {
    if events != [] { ResyncOnKeyFrame(kind, video, ssrc, events[..|events| - 1]); }
  }

  /** A re-sync becomes pending exactly by a bind or by muting an enabled track, stays so while packets are
      dropped, and is over with the packet sent next, which is marked; nothing is sent unless the track is
      enabled and bound. */
  lemma {:induction false} ResyncPendingIff(h: History, kind: TrackType, video: bool, e: Event)
    ensures var g := Next(h, kind, video, e);
            if g.log == h.log then
              g.state.reSync == (h.state.reSync || e.Bind? || (e.Mute? && e.val && h.state.enabled))
            else
              && e.Packet? && h.state.enabled && h.state.bound && !g.state.reSync
              && g.log == h.log + [g.log[|h.log|]] && g.log[|h.log|].resynced == h.state.reSync && g.log[|h.log|].source == e.p
  {}

  // ---------------------------------------------------------------- what is sent at all

  /** Bound: by the last bind or unbind. */
  function BoundBy(events: seq<Event>): bool {
    if events == [] then false
    else
      match events[|events| - 1]
      case Bind => true
      case Unbind => false
      case _ => BoundBy(events[..|events| - 1])
  }

  /** Not muted: by the last bind or mute. */
  function EnabledBy(events: seq<Event>): bool {
    if events == [] then false
    else
      match events[|events| - 1]
      case Bind => true
      case Mute(val) => !val
      case _ => EnabledBy(events[..|events| - 1])
  }

  /** A packet reaches the track: it is bound, not muted, and the packet is of its layer. */
  predicate Reaches(kind: TrackType, before: seq<Event>, onLayer: bool) {
    BoundBy(before) && EnabledBy(before) && (kind == Simulcast ==> onLayer)
  }

  /** A re-sync is pending: since a bind or a mute, no packet has been sent. */
  function PendingBy(kind: TrackType, video: bool, events: seq<Event>): bool
    decreases |events|, 0
  {
    if events == [] then false
    else
      var init := events[..|events| - 1];
      match events[|events| - 1]
      case Bind => true
      case Mute(val) => (val && EnabledBy(init)) || PendingBy(kind, video, init)
      case Packet(p, onLayer) => PendingBy(kind, video, init) && !(Reaches(kind, init, onLayer) && !Waits(kind, video, init, p))
      case Unbind => PendingBy(kind, video, init)
  }

  /** A packet has to wait for a key frame: a re-sync is pending, and it is video, or simulcast, and none. */
  predicate Waits(kind: TrackType, video: bool, before: seq<Event>, p: ExtPacket)
    decreases |before|, 1
  {
    PendingBy(kind, video, before) && (video || kind == Simulcast) && !p.keyFrame
  }

  /** The packets that should be sent, each with whether it is the first since a bind or a mute. */
  function Expected(kind: TrackType, video: bool, events: seq<Event>): seq<(ExtPacket, bool)> {
    if events == [] then []
    else
      var init, e := events[..|events| - 1], events[|events| - 1];
      Expected(kind, video, init)
      + if e.Packet? && Reaches(kind, init, e.onLayer) && !Waits(kind, video, init, e.p) then [(e.p, PendingBy(kind, video, init))] else []
  }

  /** The packets held back, for each of which a key frame should be asked for. */
  function HeldBack(kind: TrackType, video: bool, events: seq<Event>): seq<ExtPacket> {
    if events == [] then []
    else
      var init, e := events[..|events| - 1], events[|events| - 1];
      HeldBack(kind, video, init) + if e.Packet? && Reaches(kind, init, e.onLayer) && Waits(kind, video, init, e.p) then [e.p] else []
  }

  function Sources(log: seq<Sent>): seq<(ExtPacket, bool)> { seq(|log|, i requires 0 <= i < |log| => (log[i].source, log[i].resynced)) }

  /** In every run exactly these packets are sent, in order and once each, and a key frame is asked for for
      exactly those held back; nothing is sent by a track that is muted or not bound. */
  lemma {:induction false} RunSends(kind: TrackType, video: bool, ssrc: u32, events: seq<Event>)
    ensures var h := Run(kind, video, ssrc, events);
            && Sources(h.log) == Expected(kind, video, events) && h.refused == HeldBack(kind, video, events)
            && h.state.bound == BoundBy(events) && h.state.enabled == EnabledBy(events) && h.state.reSync == PendingBy(kind, video, events)
  {
    if events != [] {
      var init, e := events[..|events| - 1], events[|events| - 1];
      RunSends(kind, video, ssrc, init);
      var h := Run(kind, video, ssrc, init);
      var g := Next(h, kind, video, e);
      hide Run, WriteStep;
      if e.Packet? {
        StepSends(h.state, kind, video, e.p, e.onLayer);
        OneMoreSource(h.log, g.log);
      }
    }
  }

  lemma {:induction false} OneMoreSource(log: seq<Sent>, more: seq<Sent>)
    ensures |more| == |log| + 1 && more[..|log|] == log ==> Sources(more) == Sources(log) + [(more[|log|].source, more[|log|].resynced)]
  {
    if |more| == |log| + 1 && more[..|log|] == log { assert forall i :: 0 <= i < |log| ==> more[i] == log[i]; }
  }

  lemma {:induction false} StepSends(s: TrackState, kind: TrackType, video: bool, p: ExtPacket, onLayer: bool)
    ensures var (t, o) := WriteStep(s, kind, video, p, onLayer);
            var reaches := s.bound && s.enabled && (kind == Simulcast ==> onLayer);
            var waits := s.reSync && (video || kind == Simulcast) && !p.keyFrame;
            && t.bound == s.bound && t.enabled == s.enabled && t.reSync == (s.reSync && !(reaches && !waits))
            && (o.Forwarded? <==> reaches && !waits) && (o.KeyFrameWanted? <==> reaches && waits)
            && (o.Forwarded? ==> o.sent.source == p && o.sent.resynced == s.reSync)
  {}
}
