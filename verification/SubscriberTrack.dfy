/** The down track as an object: its methods update the state of DownTracks in place, hand packets to
    the write stream, and record what was sent in the sequencer. */
module SubscriberTracks {
  import opened Numbers
  import opened Sequencers
  import opened DownTracks

  class DownTrack {
    const video: bool
    const trackType: TrackType
    const maxTrack: nat
    var enabled: bool
    var bound: bool
    var reSync: bool
    var snOffset: u16
    var tsOffset: u32
    var lastSn: u16
    var lastTs: u32
    var lastSsrc: u32
    var lTsCalc: int
    var ssrc: u32
    var payloadType: u8
    var currentSpatialLayer: nat
    var sequencer: Sequencer
    /** What the write stream has been given, and how often a key frame has been asked for. */
    var written: seq<Rtp>
    var keyFrameRequests: nat

    ghost function State(): TrackState
      reads this
    {
      TrackState(enabled, bound, reSync, snOffset, tsOffset, lastSn, lastTs, lastSsrc, lTsCalc)
    }

    ghost predicate Valid()
      reads this, sequencer
    {
      sequencer.Valid() && maxTrack <= 0x1_0000
    }

    constructor (isVideo: bool, kind: TrackType, max: nat, layer: nat)
      requires max <= 0x1_0000
      ensures Valid() && fresh(sequencer) && State() == Fresh(0) && written == [] && keyFrameRequests == 0
      ensures video == isVideo && trackType == kind && maxTrack == max && currentSpatialLayer == layer
    {
      video, trackType, maxTrack, currentSpatialLayer := isVideo, kind, max, layer;
      enabled, bound, reSync, snOffset, tsOffset := false, false, false, 0, 0;
      lastSn, lastTs, lastSsrc, lTsCalc, ssrc, payloadType := 0, 0, 0, 0, 0, 0;
      written, keyFrameRequests := [], 0;
      sequencer := new Sequencer(0);
    }

    /** The source is set when a simulcast track is added to the receiver. */
    method SetLastSsrc(val: u32)
      modifies this`lastSsrc
      ensures State() == old(State()).(lastSsrc := val)
    {
      lastSsrc := val;
    }

    method SetMuted(val: bool)
      modifies this`enabled, this`reSync
      ensures State() == MuteStep(old(State()), val)
    {
      if enabled != val {
        return;
      }
      enabled := !val;
      if val {
        reSync := val;
      }
    }

    /** A video track starts a new sequencer whenever it is bound. */
    method BindTo(newSsrc: u32, newPayloadType: u8)
      requires Valid()
      modifies this`ssrc, this`payloadType, this`reSync, this`enabled, this`bound, this`sequencer
      ensures Valid() && State() == BindStep(old(State()))
      ensures ssrc == newSsrc && payloadType == newPayloadType
      ensures if video then fresh(sequencer) && sequencer.recorded == map[] && sequencer.max == maxTrack else sequencer == old(sequencer)
    {
      ssrc := newSsrc;
      payloadType := newPayloadType;
      reSync := true;
      enabled := true;
      if video {
        sequencer := new Sequencer(maxTrack);
      }
      bound := true;
    }

    method Unbind()
      modifies this`bound
      ensures State() == UnbindStep(old(State()))
    {
      bound := false;
    }

    method WriteRtp(p: ExtPacket, layer: nat)
      requires Valid()
      modifies this, sequencer
      ensures Valid() && sequencer == old(sequencer) && Unchanged(old(ssrc), old(payloadType))
      ensures var (s, o) := WriteStep(old(State()), trackType, video, p, layer == old(currentSpatialLayer));
        && State() == s
        && (if o.Forwarded? then Wrote(old(written), written, p.rtp, payloadType, o.sent.sn, o.sent.ts, ssrc) else written == old(written))
        && (o.Forwarded? ==>
              var q := written[|old(written)|];
              && q.sequenceNumber == o.sent.sn && q.timestamp == o.sent.ts && q.ssrc == ssrc && q.payloadType == payloadType
              && q.other == p.rtp.other && q.payload == p.rtp.payload)
        && keyFrameRequests == old(keyFrameRequests) + (if o.KeyFrameWanted? then 1 else 0)
        && (if o.Forwarded? && trackType == Simple
            then sequencer.init && Records(old(sequencer.recorded), old(sequencer.Base(o.sent.sn)), sequencer.recorded, sequencer.head, sequencer.max,
                                           p.head, PacketMeta(p.rtp.sequenceNumber, o.sent.sn, o.sent.ts, 0, 0, 0))
            else sequencer.recorded == old(sequencer.recorded) && sequencer.head == old(sequencer.head) && sequencer.init == old(sequencer.init))
    {
      hide Sub16, Sub32, Ticks, Logged, Apart, Recorded, Pushed, Records;
      if !enabled {
        return;
      }
      if !bound {
        return;
      }
      match trackType
      case Simple => WriteSimpleRtp(p);
      case Simulcast => WriteSimulcastRtp(p, layer);
    }

    ghost predicate Unchanged(oldSsrc: u32, oldPayloadType: u8)
      reads this
    {
      ssrc == oldSsrc && payloadType == oldPayloadType
    }

    method WriteSimpleRtp(p: ExtPacket)
      requires Valid()
      modifies this`snOffset, this`tsOffset, this`lastSsrc, this`reSync, this`lastSn, this`lastTs, this`written, this`keyFrameRequests, sequencer
      ensures Valid()
      ensures var (s, o) := SimpleStep(old(State()), video, p);
        && State() == s
        && (if o.Forwarded? then Wrote(old(written), written, p.rtp, payloadType, o.sent.sn, o.sent.ts, ssrc) else written == old(written))
        && keyFrameRequests == old(keyFrameRequests) + (if o.KeyFrameWanted? then 1 else 0)
        && (if o.Forwarded?
            then sequencer.init && Records(old(sequencer.recorded), old(sequencer.Base(o.sent.sn)), sequencer.recorded, sequencer.head, sequencer.max,
                                           p.head, PacketMeta(p.rtp.sequenceNumber, o.sent.sn, o.sent.ts, 0, 0, 0))
            else sequencer.recorded == old(sequencer.recorded) && sequencer.head == old(sequencer.head) && sequencer.init == old(sequencer.init))
    {
      hide Sub16, Sub32, Wrote, Logged, Apart, Recorded, Pushed, Records;
      if reSync {
        if video && !p.keyFrame {
          keyFrameRequests := keyFrameRequests + 1;
          return;
        }
        Resynchronize(p);
      }
      SendRecorded(p);
    }

    /** rsfu/src/sfu/down_track.rs:506-520. */
    method Resynchronize(p: ExtPacket)
      modifies this`snOffset, this`tsOffset, this`lastSsrc, this`reSync
      ensures var s := old(State());
        State() == s.(snOffset := if s.lastSn != 0 then Sub16(p.rtp.sequenceNumber - s.lastSn, 1) else s.snOffset,
                      tsOffset := if s.lastSn != 0 then Sub32(p.rtp.timestamp - s.lastTs, 1) else s.tsOffset,
                      lastSsrc := p.rtp.ssrc,
                      reSync := false)
    {
      hide Sub16, Sub32;
      if lastSn != 0 {
        snOffset := Sub16(p.rtp.sequenceNumber - lastSn, 1);
        tsOffset := Sub32(p.rtp.timestamp - lastTs, 1);
      }
      lastSsrc := p.rtp.ssrc;
      reSync := false;
    }

    /** rsfu/src/sfu/down_track.rs:522-554: renumber, record, remember the head, write. */
    method SendRecorded(p: ExtPacket)
      requires Valid()
      modifies this`lastSn, this`lastTs, this`written, sequencer
      ensures Valid()
      ensures var sn, ts := Sub16(p.rtp.sequenceNumber, snOffset), Sub32(p.rtp.timestamp, tsOffset);
        && State() == (if p.head then old(State()).(lastSn := sn, lastTs := ts) else old(State()))
        && Wrote(old(written), written, p.rtp, payloadType, sn, ts, ssrc)
        && sequencer.init
        && Records(old(sequencer.recorded), old(sequencer.Base(sn)), sequencer.recorded, sequencer.head, sequencer.max,
                   p.head, PacketMeta(p.rtp.sequenceNumber, sn, ts, 0, 0, 0))
    {
      hide Sub16, Sub32, Logged, Apart, Recorded, Records, Pushed;
      var newSn := Sub16(p.rtp.sequenceNumber, snOffset);
      var newTs := Sub32(p.rtp.timestamp, tsOffset);
      ghost var before, base := sequencer.recorded, sequencer.Base(newSn);
      ghost var kept := sequencer.Kept(Sub16(newSn, base));
      RecordedBehind(sequencer.seq_, sequencer.step, sequencer.max, sequencer.head, before);
      var _ := sequencer.Push(p.rtp.sequenceNumber, newSn, newTs, 0, p.head);
      PushRecords(before, base, sequencer.recorded, sequencer.head, sequencer.headSn, sequencer.max, p.head,
                  PacketMeta(p.rtp.sequenceNumber, newSn, newTs, 0, 0, 0), kept);
      if p.head {
        lastSn := newSn;
        lastTs := newTs;
      }
      var packet := p.rtp.(payloadType := payloadType, timestamp := newTs, sequenceNumber := newSn, ssrc := ssrc);
      written := written + [packet];
    }

    method WriteSimulcastRtp(p: ExtPacket, layer: nat)
      modifies this`snOffset, this`tsOffset, this`lastSsrc, this`reSync, this`lastSn, this`lastTs, this`lTsCalc, this`written, this`keyFrameRequests
      ensures var (s, o) := SimulcastStep(old(State()), p, layer == currentSpatialLayer);
        && State() == s
        && (if o.Forwarded? then Wrote(old(written), written, p.rtp, payloadType, o.sent.sn, o.sent.ts, ssrc) else written == old(written))
        && keyFrameRequests == old(keyFrameRequests) + (if o.KeyFrameWanted? then 1 else 0)
    {
      hide Sub16, Sub32, Ticks, Wrote;
      var wasReSync := reSync;
      if currentSpatialLayer != layer {
        return;
      }
      var wasSsrc := lastSsrc;
      if wasSsrc != p.rtp.ssrc || wasReSync {
        if wasReSync && !p.keyFrame {
          keyFrameRequests := keyFrameRequests + 1;
          return;
        }
        if wasReSync && lTsCalc != 0 {
          lTsCalc := p.arrival;
        }
        reSync := false;
      }
      Shift(p, wasSsrc);
      SendTimed(p);
    }

    /** rsfu/src/sfu/down_track.rs:604-629: offsets for another SSRC, or the first packet taken as the reference. */
    method Shift(p: ExtPacket, wasSsrc: u32)
      modifies this`snOffset, this`tsOffset, this`lastSsrc, this`lastSn, this`lastTs
      ensures var s := old(State());
        State() == if s.lTsCalc != 0 && wasSsrc != p.rtp.ssrc then
                     s.(lastSsrc := p.rtp.ssrc,
                        tsOffset := Sub32(p.rtp.timestamp, s.lastTs + Ticks(p.arrival - s.lTsCalc)),
                        snOffset := Sub16(p.rtp.sequenceNumber - s.lastSn, 1))
                   else if s.lTsCalc == 0 then s.(lastTs := p.rtp.timestamp, lastSn := p.rtp.sequenceNumber)
                   else s
    {
      hide Sub16, Sub32, Ticks, Wrote;
      if lTsCalc != 0 && wasSsrc != p.rtp.ssrc {
        lastSsrc := p.rtp.ssrc;
        var td := Ticks(p.arrival - lTsCalc);
        tsOffset := Sub32(p.rtp.timestamp, lastTs + td);
        snOffset := Sub16(p.rtp.sequenceNumber - lastSn, 1);
      } else if lTsCalc == 0 {
        lastTs := p.rtp.timestamp;
        lastSn := p.rtp.sequenceNumber;
      }
    }

    /** rsfu/src/sfu/down_track.rs:631-670. */
    method SendTimed(p: ExtPacket)
      modifies this`lastSn, this`lastTs, this`lTsCalc, this`written
      ensures var sn, ts := Sub16(p.rtp.sequenceNumber, snOffset), Sub32(p.rtp.timestamp, tsOffset);
        && State() == (if p.head then old(State()).(lastSn := sn, lastTs := ts, lTsCalc := p.arrival) else old(State()).(lTsCalc := p.arrival))
        && Wrote(old(written), written, p.rtp, payloadType, sn, ts, ssrc)
    {
      hide Sub16, Sub32, Logged, Apart, Recorded, Pushed, Records;
      var newSn := Sub16(p.rtp.sequenceNumber, snOffset);
      var newTs := Sub32(p.rtp.timestamp, tsOffset);
      if p.head {
        lastSn := newSn;
        lastTs := newTs;
      }
      lTsCalc := p.arrival;
      var packet := p.rtp.(payloadType := payloadType, timestamp := newTs, sequenceNumber := newSn, ssrc := ssrc);
      written := written + [packet];
    }
  }

  /** What recording a packet does: no other entry that stays is changed, the head does not go back, and a
      head packet is recorded in front of those of the window. */
  ghost predicate Records(before: map<int, PacketMeta>, base: int, after: map<int, PacketMeta>, head: int, max: nat, isHead: bool, meta: PacketMeta) {
    OnlyAdds(before, after, head, meta) && head >= base && (isHead ==> Advances(before, base, after, head, max, meta))
  }

  lemma {:induction false} RecordedBehind(slots: map<int, PacketMeta>, step: nat, max: nat, head: int, m: map<int, PacketMeta>)
    requires Recorded(slots, step, max, head, m)
    ensures forall k <- m :: k <= head
  {}

  /** What the sequencer promises of a push, in these terms. */
  lemma {:induction false} PushRecords(before: map<int, PacketMeta>, base: int, after: map<int, PacketMeta>, head: int, headSn: u16, max: nat,
                                       isHead: bool, meta: PacketMeta, kept: map<int, PacketMeta>)
    requires (forall k <- before :: k <= base) && headSn == head % 0x1_0000
    requires var d := Sub16(meta.targetSeqNo, base);
             if isHead then
               && head == base + d && headSn == meta.targetSeqNo
               && kept == (if d == 0 then map[] else map k | k in before && k + max >= base + d + 2 :: before[k])
               && after == if max >= 2 then kept[head := meta] else map[]
             else
               head == base && (after == before || after == map[] || (after == map[head := meta] && headSn == meta.targetSeqNo))
    ensures Records(before, base, after, head, max, isHead, meta)
  {}

  /** Recording a packet changes no other entry that stays. */
  ghost predicate OnlyAdds(before: map<int, PacketMeta>, after: map<int, PacketMeta>, head: int, meta: PacketMeta) {
    forall k <- after :: (k in before && after[k] == before[k]) || (k == head && after[k] == meta && meta.targetSeqNo == head % 0x1_0000)
  }

  /** A head packet is recorded in front, and the last max - 1 numbers stay recorded. */
  ghost predicate Advances(before: map<int, PacketMeta>, base: int, after: map<int, PacketMeta>, head: int, max: nat, meta: PacketMeta) {
    && head == base + Sub16(meta.targetSeqNo, base)
    && (max >= 2 ==> head in after && after[head] == meta)
    && (head > base ==> forall k <- before :: k + max >= head + 2 ==> k in after && after[k] == before[k])
  }
}
