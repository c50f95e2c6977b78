/** From publisher to subscriber and back: packets are cached and queued as they arrive, forwarded under
    new numbers, and, when the subscriber asks for one of these numbers again, rebuilt from the cache. */
module Retransmission {
  import opened Numbers
  import opened Wrappers
  import opened BucketRing
  import opened Sequencers
  import opened DownTracks
  import opened SubscriberTracks
  import opened Windows

  /** The RTP library's parser: it reads the sequence number from bytes 2 and 3 (section 5.1 of RFC 3550). */
  ghost predicate ReadsSequenceNumber(parse: seq<u8> -> Option<Rtp>) {
    forall b: seq<u8> :: |b| >= 4 && parse(b).Some? ==> parse(b).value.sequenceNumber == ReadBe16(b, 2)
  }

  class Forwarding {
    const bucket: Bucket
    const track: DownTrack
    const parse: seq<u8> -> Option<Rtp>
    var extPackets: seq<ExtPacket>
    /** The extended source numbers of the queued packets, the bytes every source number has stood for,
        and, by extended number sent, what was sent. */
    ghost var sources: seq<int>
    ghost var seen: map<int, seq<u8>>
    ghost var sent: map<int, SentPacket>
    /** The whole run: what arrived, and what was sent since the track was bound. */
    ghost var arrivals: seq<Arrived>
    ghost var deliveries: seq<Delivery>

    ghost predicate Valid()
      reads this, bucket, bucket.buf, track, track.sequencer
    {
      bucket.Valid() && Accounted() && Cached() && TrackSide()
    }

    ghost predicate TrackSide()
      reads this, track, track.sequencer
    {
      && track.Valid() && track.trackType == Simple && ReadsSequenceNumber(parse)
      && Remembered()
      && Linked(track.sequencer.recorded, sent, seen, parse, track.payloadType, track.ssrc)
      && Delivered(track.sequencer.recorded, sent, track.written)
    }

    constructor (b: Bucket, t: DownTrack, parser: seq<u8> -> Option<Rtp>)
      requires b.Valid() && !b.init && t.Valid() && t.trackType == Simple && t.sequencer.recorded == map[]
      requires ReadsSequenceNumber(parser)
      ensures Valid() && bucket == b && track == t && parse == parser && extPackets == []
    {
      bucket, track, parse, extPackets := b, t, parser, [];
      sources, seen, sent, arrivals, deliveries := [], map[], map[], [], [];
    }

    /** The cache holds what the window of the run promises. */
    ghost predicate Cached()
      reads this, bucket
    {
      && (!bucket.init ==> arrivals == [])
      && CacheHolds(arrivals, bucket.store, bucket.head, bucket.maxSteps)
      && forall i :: 0 <= i < |arrivals| ==> arrivals[i].source in seen && seen[arrivals[i].source] == arrivals[i].pkt
    }

    /** So does the sequencer. */
    ghost predicate Remembered()
      reads this, track, track.sequencer
    {
      && (!track.sequencer.init ==> deliveries == [])
      && RecordHolds(deliveries, track.sequencer.recorded, sent, track.sequencer.head, track.sequencer.max)
    }

    /** The i-th packet sent can be asked for, and the j-th arrival, its source, is still there. */
    ghost predicate InBothWindows(i: int, j: int)
      reads this, bucket, track, track.sequencer
    {
      && StillRecorded(deliveries, i, track.sequencer.head, track.sequencer.max)
      && StillCached(arrivals, j, bucket.head, bucket.maxSteps)
      && arrivals[j].source == deliveries[i].packet.source
    }

    /** The extended number of an arrival. */
    ghost function ExtendedOf(sn: u16, latest: bool): int
      reads bucket
    {
      if latest then bucket.Base(sn) + Distance(sn, bucket.Base(sn) % 0x1_0000) else bucket.ExtendedLate(sn)
    }

    /** A packet from the publisher is cached and, if the cache takes it, it parses, and its payload is usable
        (for VP8, has a descriptor), queued for the subscribers. A publisher does not reuse a number for
        other bytes. */
    method Receive(pkt: seq<u8>, latest: bool, usable: bool, keyFrame: bool, arrival: int)
      requires Valid() && |pkt| >= 4 && WellFormed(pkt, ReadBe16(pkt, 2))
      requires var s := ExtendedOf(ReadBe16(pkt, 2), latest); s in seen ==> seen[s] == pkt
      modifies this`extPackets, this`sources, this`seen, this`arrivals, bucket, bucket.buf
      ensures Valid() && bucket.init
      ensures arrivals != [] && arrivals[..|arrivals| - 1] == old(arrivals)
      ensures var sn, a := ReadBe16(pkt, 2), arrivals[|arrivals| - 1];
              && a.source == old(ExtendedOf(sn, latest)) && a.pkt == pkt
              && a.aligned == old(Aligned(sn, latest))
              && CachedNext(old(bucket.store), old(bucket.Base(sn)), bucket.maxSteps, a, latest, bucket.store, bucket.head)
              && (if a.accepted && parse(pkt).Some? && usable then
                    extPackets == old(extPackets) + [ExtPacket(latest, keyFrame, arrival, parse(pkt).value)] && sources == old(sources) + [a.source]
                  else extPackets == old(extPackets) && sources == old(sources))
    {
      hide Stored, SlotsHold, Holds, Linked, ReadBe16, ReadsSequenceNumber, Recorded, Distance, CacheHolds, RecordHolds, CachedNext, Clear, WellFormed,
        QueueHolds;
      ghost var s := ExtendedOf(ReadBe16(pkt, 2), latest);
      var accepted := Cache(pkt, latest);
      QueueKept(sources, extPackets, old(seen), parse, s, pkt, latest, keyFrame, arrival);
      if accepted && parse(pkt).Some? && usable {
        extPackets := extPackets + [ExtPacket(latest, keyFrame, arrival, parse(pkt).value)];
        sources := sources + [s];
      }
      StillLinked(track.sequencer.recorded, sent, old(seen), seen, parse, track.payloadType, track.ssrc);
    }

    /** Whether an arrival leaves the ring aligned. */
    ghost predicate Aligned(sn: u16, latest: bool)
      reads bucket
    {
      latest ==> var d := Distance(sn, bucket.Base(sn) % 0x1_0000); d >= 1 && Clear(bucket.step, bucket.maxSteps, d)
    }

    method Cache(pkt: seq<u8>, latest: bool) returns (accepted: bool)
      requires bucket.Valid() && |pkt| >= 4 && WellFormed(pkt, ReadBe16(pkt, 2)) && SeenAll() && Cached()
      requires var s := ExtendedOf(ReadBe16(pkt, 2), latest); s in seen ==> seen[s] == pkt
      modifies this`seen, this`arrivals, bucket, bucket.buf
      ensures bucket.Valid() && bucket.init && SeenAll() && Cached()
      ensures seen == old(seen)[old(ExtendedOf(ReadBe16(pkt, 2), latest)) := pkt]
      ensures arrivals != [] && arrivals[..|arrivals| - 1] == old(arrivals)
      ensures var sn, a := ReadBe16(pkt, 2), arrivals[|arrivals| - 1];
              && a.source == old(ExtendedOf(sn, latest)) && a.pkt == pkt && a.accepted == accepted
              && a.aligned == old(Aligned(sn, latest))
              && CachedNext(old(bucket.store), old(bucket.Base(sn)), bucket.maxSteps, a, latest, bucket.store, bucket.head)
    {
      hide Stored, SlotsHold, Holds, ReadBe16, Distance, Sub16, Clear, CacheHolds, CachedNext, WellFormed;
      ghost var s := ExtendedOf(ReadBe16(pkt, 2), latest);
      ghost var base := bucket.Base(ReadBe16(pkt, 2));
      var r, a := AddToBucket(pkt, latest);
      StoreAccounted(old(bucket.store), base, bucket.maxSteps, a, latest, bucket.store, bucket.head, seen);
      if arrivals == [] { NothingCached(old(bucket.store), base, bucket.maxSteps); }
      ArrivalKept(arrivals, old(bucket.store), base, bucket.maxSteps, a, latest, bucket.store, bucket.head);
      arrivals := arrivals + [a];
      seen := seen[s := pkt];
      accepted := r.Ok?;
    }

    method AddToBucket(pkt: seq<u8>, latest: bool) returns (r: Result<seq<u8>, BucketRing.Error>, ghost a: Arrived)
      requires bucket.Valid() && |pkt| >= 4 && WellFormed(pkt, ReadBe16(pkt, 2))
      requires var s := ExtendedOf(ReadBe16(pkt, 2), latest); s in bucket.store ==> bucket.store[s] == pkt
      modifies bucket, bucket.buf
      ensures bucket.Valid() && bucket.init
      ensures var sn := ReadBe16(pkt, 2);
              && WellFormed(pkt, a.source)
              && a == Arrived(old(ExtendedOf(sn, latest)), pkt, r.Ok?, old(Aligned(sn, latest)))
              && CachedNext(old(bucket.store), old(bucket.Base(sn)), bucket.maxSteps, a, latest, bucket.store, bucket.head)
    {
      hide Stored, SlotsHold, Holds, ReadBe16, Sub16, AgreeOutside, StoredSn, Skip, Clear;
      var sn := ReadBe16(pkt, 2);
      NumberOf(bucket.Base(sn), sn);
      ghost var s, aligned := ExtendedOf(sn, latest), Aligned(sn, latest);
      r := bucket.AddPacket(pkt, sn, latest);
      a := Arrived(s, pkt, r.Ok?, aligned);
    }

    /** Cache and queue hold nothing but what has been seen. */
    ghost predicate Accounted()
      reads this, bucket
    {
      SeenAll() && QueueHolds(sources, extPackets, seen, parse)
    }

    ghost predicate SeenAll()
      reads this, bucket
    {
      (forall s <- bucket.store :: s in seen && seen[s] == bucket.store[s]) && forall s <- seen :: WellFormed(seen[s], s)
    }

    /** The packet at the front of the queue goes to the subscriber. */
    method Forward()
      requires Valid() && extPackets != []
      modifies this`extPackets, this`sources, this`sent, this`deliveries, track, track.sequencer
      ensures Valid()
      ensures extPackets == old(extPackets)[1..]
      ensures var p := old(extPackets[0]);
              var (s, o) := WriteStep(old(track.State()), Simple, track.video, p, 0 == old(track.currentSpatialLayer));
              && track.State() == s
              && if o.Forwarded? then
                   Sends(old(sources[0]), p, o.sent, old(track.written), old(deliveries), old(track.sequencer.Base(o.sent.sn)),
                         old(track.sequencer.recorded), old(sent))
                 else
                   track.written == old(track.written) && deliveries == old(deliveries) && sent == old(sent)
                   && track.sequencer.recorded == old(track.sequencer.recorded)
    {
      hide Stored, Holds, SlotsHold, Recorded, Logged, Apart, WriteStep, Sends, Linked, Delivered, RecordHolds, CacheHolds, ReadsSequenceNumber;
      var p := extPackets[0];
      ghost var s := sources[0];
      extPackets := extPackets[1..];
      sources := sources[1..];
      Send(p, s);
    }

    /** What sending p, of source number s, leaves: the packet written, noted as delivered, and recorded; what
        was sent under other numbers stays. */
    ghost predicate Sends(s: int, p: ExtPacket, o: Sent, written: seq<Rtp>, earlier: seq<Delivery>, base: int,
                          before: map<int, PacketMeta>, sent0: map<int, SentPacket>)
      reads this, track, track.sequencer
    {
      var head := track.sequencer.head;
      && Wrote(written, track.written, p.rtp, track.payloadType, o.sn, o.ts, track.ssrc)
      && deliveries == earlier + [Delivery(head, SentPacket(s, track.written[|written|]), p.head, p.head && head > base)]
      && Records(before, base, track.sequencer.recorded, head, track.sequencer.max, p.head, PacketMeta(p.rtp.sequenceNumber, o.sn, o.ts, 0, 0, 0))
      && forall k <- sent0 :: k != head ==> k in sent && sent[k] == sent0[k]
    }

    method Send(p: ExtPacket, ghost s: int)
      requires TrackSide() && s in seen && parse(seen[s]) == Some(p.rtp) && WellFormed(seen[s], s)
      modifies this`sent, this`deliveries, track, track.sequencer
      ensures TrackSide()
      ensures var (t, o) := WriteStep(old(track.State()), Simple, track.video, p, 0 == old(track.currentSpatialLayer));
              && track.State() == t
              && if o.Forwarded? then
                   Sends(s, p, o.sent, old(track.written), old(deliveries), old(track.sequencer.Base(o.sent.sn)),
                         old(track.sequencer.recorded), old(sent))
                 else
                   track.written == old(track.written) && deliveries == old(deliveries) && sent == old(sent)
                   && track.sequencer.recorded == old(track.sequencer.recorded)
    {
      hide WellFormed, ReadsSequenceNumber, Recorded, Logged, Apart, WriteStep, Carries, Linked, Delivered, RecordHolds, Records;
      ghost var o := WriteStep(track.State(), Simple, track.video, p, 0 == track.currentSpatialLayer).1;
      ghost var base := if o.Forwarded? then track.sequencer.Base(o.sent.sn) else 0;
      track.WriteRtp(p, 0);
      if o.Forwarded? {
        ForwardedAs(track.State(), old(track.State()), track.video, p, 0 == old(track.currentSpatialLayer), o);
        ghost var meta := PacketMeta(p.rtp.sequenceNumber, o.sent.sn, o.sent.ts, 0, 0, 0);
        ghost var head := track.sequencer.head;
        ghost var d := Delivery(head, SentPacket(s, track.written[|old(track.written)|]), p.head, p.head && head > base);
        assert track.written == old(track.written) + [d.packet.rtp];
        if head in track.sequencer.recorded && track.sequencer.recorded[head] == meta {
          sent := sent[head := d.packet];
        }
        if deliveries == [] { NothingDelivered(old(track.sequencer.recorded), old(sent), base, track.sequencer.max); }
        SendKeeps(deliveries, old(track.sequencer.recorded), old(sent), base, track.sequencer.max, d, track.sequencer.recorded, sent, head,
                  meta, old(track.written), seen, parse, track.payloadType, track.ssrc, p.rtp);
        deliveries := deliveries + [d];
      } else {
        assert track.written == old(track.written);
      }
    }

    /** A new binding starts a new sequencer: nothing sent before can be asked for. */
    method Rebind(ssrc: u32, payloadType: u8)
      requires Valid() && track.video
      modifies track, this`deliveries
      ensures Valid() && track.sequencer.recorded == map[] && deliveries == [] && track.State() == BindStep(old(track.State()))
    {
      deliveries := [];
      track.BindTo(ssrc, payloadType);
    }

    /** A generic NACK from the subscriber, over any run: a number asked for that is inside both windows is
        on record, and, if due, the packet first sent under it is sent again, and no other under this number. */
    method AnswerNack(targets: seq<u16>, now: nat) returns (out: seq<Rtp>)
      requires Valid() && now >= track.sequencer.clock
      modifies track`written, track.sequencer
      ensures Valid()
      ensures track.written == old(track.written) + out
      ensures forall i :: 0 <= i < |out| ==> out[i].sequenceNumber in targets
      ensures forall i, j :: InBothWindows(i, j) ==>
        var k := deliveries[i].number;
        && k in old(track.sequencer.recorded)
        && var last := old(track.sequencer.recorded)[k].lastNack;
        && (k % 0x1_0000 in targets && (last == 0 || now - last > 100) ==> deliveries[i].packet.rtp in out)
        && (forall t :: 0 <= t < |out| && out[t].sequenceNumber == k % 0x1_0000 ==> out[t] == deliveries[i].packet.rtp)
      // and the packet first sent is the parsed arrival under its own numbers
      ensures forall i, j :: InBothWindows(i, j) ==>
        var first := deliveries[i].packet.rtp;
        && parse(arrivals[j].pkt).Some? && first.payload == parse(arrivals[j].pkt).value.payload && first.other == parse(arrivals[j].pkt).value.other
        && first.sequenceNumber == deliveries[i].number % 0x1_0000
        && first.ssrc == track.ssrc && first.payloadType == track.payloadType
        && first.timestamp == old(track.sequencer.recorded)[deliveries[i].number].timestamp
    {
      hide Stored, Holds, SlotsHold, Logged, Apart, Linked, Delivered, ReadsSequenceNumber, Refreshed;
      forall i, j | InBothWindows(i, j)
        ensures deliveries[i].number in track.sequencer.recorded && deliveries[i].packet.source in bucket.store
                && sent[deliveries[i].number] == deliveries[i].packet && seen[deliveries[i].packet.source] == arrivals[j].pkt
                && Rebuilds(track.sequencer.recorded[deliveries[i].number], deliveries[i].packet, seen, parse, track.payloadType, track.ssrc)
      {
        assert arrivals[j].source in bucket.store;
        LinkedAt(track.sequencer.recorded, sent, seen, parse, track.payloadType, track.ssrc, deliveries[i].number);
      }
      out := AnswerRecorded(targets, now);
    }

    /** The same in terms of the records: every number asked for that is on record, due, and whose source
        packet is still retrievable is sent again exactly as it was sent first. */
    method AnswerRecorded(targets: seq<u16>, now: nat) returns (out: seq<Rtp>)
      requires Valid() && now >= track.sequencer.clock
      modifies track`written, track.sequencer
      ensures Valid()
      ensures track.written == old(track.written) + out
      ensures forall k <- old(track.sequencer.recorded) ::
        k % 0x1_0000 in targets && Due(old(track.sequencer.recorded)[k].lastNack, now) && sent[k].source in bucket.store
        ==> sent[k].rtp in out
      ensures forall i :: 0 <= i < |out| ==> out[i].sequenceNumber in targets
      ensures forall i, k :: 0 <= i < |out| && k in track.sequencer.recorded && k % 0x1_0000 == out[i].sequenceNumber ==>
        (sent[k].source in bucket.store ==> out[i] == sent[k].rtp)
      ensures track.sequencer.recorded.Keys == old(track.sequencer.recorded).Keys
    {
      hide Stored, Holds, SlotsHold, Recorded, Logged, Apart, ReadsSequenceNumber, CacheHolds, RecordHolds, Finds, Answered, Linked, SentInOrder, Complete,
        Sound, Refreshed, Delivered;
      var metas := track.sequencer.GetSeqNoPairs(targets, now);
      RefreshedHolds(deliveries, old(track.sequencer.recorded), sent, track.sequencer.head, track.sequencer.max, targets, now);
      ghost var sources := Sources(metas);
      out := Retransmit(metas);
      StillDelivered(old(track.sequencer.recorded), track.sequencer.recorded, sent, old(track.written), out);
      ghost var rec := old(track.sequencer.recorded);
      RefreshedLinked(rec, targets, now, sent, seen, parse, track.payloadType, track.ssrc);
      forall j, k | 0 <= j < |metas| && k in bucket.store && k % 0x1_0000 == metas[j].sourceSeqNo ensures sources[j] == Some(bucket.store[k]) {
        bucket.FindsStored(metas[j].sourceSeqNo);
      }
      RecordsAnswered(out, metas, sources, rec, targets, now, sent, seen, bucket.store, parse, track.payloadType, track.ssrc);
    }

    /** The bytes the cache finds for each entry. */
    ghost function Sources(metas: seq<PacketMeta>): (sources: seq<Option<seq<u8>>>)
      reads bucket
      ensures |sources| == |metas|
    {
      seq(|metas|, i requires 0 <= i < |metas| reads bucket => bucket.Find(metas[i].sourceSeqNo))
    }

    /** retransmit_packets: look up the source bytes of each entry, parse them, put the numbers of the
        entry into the header, and write. */
    method Retransmit(metas: seq<PacketMeta>) returns (out: seq<Rtp>)
      requires bucket.Valid()
      modifies track`written
      ensures track.written == old(track.written) + out
      ensures SentInOrder(out, metas, Sources(metas), parse, track.payloadType, track.ssrc)
    {
      hide SentInOrder;
      out := [];
      var i := 0;
      NothingAsked(parse, track.payloadType, track.ssrc);
      while i < |metas|
        invariant 0 <= i <= |metas| && bucket.Valid()
        invariant track.written == old(track.written) + out
        invariant SentInOrder(out, metas[..i], Sources(metas)[..i], parse, track.payloadType, track.ssrc)
      {
        var p := RetransmitOne(metas[i]);
        OneMoreAsked(out, metas, Sources(metas), parse, track.payloadType, track.ssrc, i, p);
        if p.Some? {
          out := out + [p.value];
        }
        i := i + 1;
      }
      assert metas[..i] == metas && Sources(metas)[..i] == Sources(metas);
    }

    method RetransmitOne(m: PacketMeta) returns (r: Option<Rtp>)
      requires bucket.Valid()
      modifies track`written
      ensures track.written == old(track.written) + if r.Some? then [r.value] else []
      ensures r.Some? <==> Usable(bucket.Find(m.sourceSeqNo), parse)
      ensures r.Some? ==>
        Carries(r.value, parse(bucket.Find(m.sourceSeqNo).value).value, track.payloadType, m.targetSeqNo, m.timestamp, track.ssrc)
    {
      hide Stored, Holds, SlotsHold, WellFormed;
      r := None;
      var data := new u8[65535];
      var size := bucket.GetPacket(data, m.sourceSeqNo);
      if size.Ok? {
        var q := parse(data[..size.value]);
        if q.Some? {
          var p := q.value;
          p := p.(sequenceNumber := m.targetSeqNo, timestamp := m.timestamp, ssrc := track.ssrc, payloadType := track.payloadType);
          r := Some(p);
          track.written := track.written + [p];
        }
      }
    }
  }

  /** Bytes were found that fit the buffer of retransmit_packets and parse. */
  ghost predicate Usable(source: Option<seq<u8>>, parse: seq<u8> -> Option<Rtp>) {
    source.Some? && |source.value| <= 65535 && parse(source.value).Some?
  }

  /** What is sent for the entries: for each whose bytes are usable, in order, the packet they parse to under
      the numbers of the entry, and nothing else. */
  ghost predicate SentInOrder(out: seq<Rtp>, metas: seq<PacketMeta>, sources: seq<Option<seq<u8>>>, parse: seq<u8> -> Option<Rtp>,
                              payloadType: u8, ssrc: u32)
    requires |sources| == |metas|
  {
    if metas == [] then out == []
    else
      var k := |metas| - 1;
      if Usable(sources[k], parse) then
        && out != []
        && Carries(out[|out| - 1], parse(sources[k].value).value, payloadType, metas[k].targetSeqNo, metas[k].timestamp, ssrc)
        && SentInOrder(out[..|out| - 1], metas[..k], sources[..k], parse, payloadType, ssrc)
      else SentInOrder(out, metas[..k], sources[..k], parse, payloadType, ssrc)
  }

  lemma {:induction false} NothingAsked(parse: seq<u8> -> Option<Rtp>, payloadType: u8, ssrc: u32)
    ensures SentInOrder([], [], [], parse, payloadType, ssrc)
  {}

  lemma {:induction false} OneMoreAsked(out: seq<Rtp>, metas: seq<PacketMeta>, sources: seq<Option<seq<u8>>>, parse: seq<u8> -> Option<Rtp>,
                                        payloadType: u8, ssrc: u32, i: nat, p: Option<Rtp>)
    requires i < |metas| == |sources| && SentInOrder(out, metas[..i], sources[..i], parse, payloadType, ssrc)
    requires p.Some? <==> Usable(sources[i], parse)
    requires p.Some? ==> Carries(p.value, parse(sources[i].value).value, payloadType, metas[i].targetSeqNo, metas[i].timestamp, ssrc)
    ensures SentInOrder(if p.Some? then out + [p.value] else out, metas[..i + 1], sources[..i + 1], parse, payloadType, ssrc)
  {
    assert metas[..i + 1][..i] == metas[..i] && sources[..i + 1][..i] == sources[..i];
    if p.Some? { assert (out + [p.value])[..|out|] == out; }
  }

  /** Every usable entry has its packet in the answer. */
  lemma {:induction false} EachAnswered(out: seq<Rtp>, metas: seq<PacketMeta>, sources: seq<Option<seq<u8>>>, parse: seq<u8> -> Option<Rtp>,
                                        payloadType: u8, ssrc: u32, j: nat) returns (i: nat)
    requires j < |metas| == |sources| && SentInOrder(out, metas, sources, parse, payloadType, ssrc) && Usable(sources[j], parse)
    ensures i < |out| && Carries(out[i], parse(sources[j].value).value, payloadType, metas[j].targetSeqNo, metas[j].timestamp, ssrc)
  {
    var k := |metas| - 1;
    if j == k {
      i := |out| - 1;
    } else {
      i := EachAnswered(if Usable(sources[k], parse) then out[..|out| - 1] else out, metas[..k], sources[..k], parse, payloadType, ssrc, j);
    }
  }

  /** Every packet of the answer is that of a usable entry. */
  lemma {:induction false} EachAsked(out: seq<Rtp>, metas: seq<PacketMeta>, sources: seq<Option<seq<u8>>>, parse: seq<u8> -> Option<Rtp>,
                                     payloadType: u8, ssrc: u32, i: nat) returns (j: nat)
    requires |metas| == |sources| && SentInOrder(out, metas, sources, parse, payloadType, ssrc) && i < |out|
    ensures j < |metas| && Usable(sources[j], parse)
    ensures Carries(out[i], parse(sources[j].value).value, payloadType, metas[j].targetSeqNo, metas[j].timestamp, ssrc)
  {
    var k := |metas| - 1;
    if Usable(sources[k], parse) && i == |out| - 1 {
      j := k;
    } else {
      j := EachAsked(if Usable(sources[k], parse) then out[..|out| - 1] else out, metas[..k], sources[..k], parse, payloadType, ssrc, i);
    }
  }

  /** What is sent for the entries of a request: for every record asked for, due, and with its source in the
      cache the packet first sent, and no other under its number. */
  lemma {:induction false} RecordsAnswered(out: seq<Rtp>, metas: seq<PacketMeta>, sources: seq<Option<seq<u8>>>, rec: map<int, PacketMeta>,
                                           targets: seq<u16>, now: nat, sent: map<int, SentPacket>, seen: map<int, seq<u8>>, store: map<int, seq<u8>>,
                                           parse: seq<u8> -> Option<Rtp>, payloadType: u8, ssrc: u32)
    requires |metas| == |sources| && SentInOrder(out, metas, sources, parse, payloadType, ssrc)
    requires Complete(metas, rec, targets, now) && Sound(metas, rec, targets, now) && Linked(rec, sent, seen, parse, payloadType, ssrc)
    requires forall s <- store :: s in seen && seen[s] == store[s] && |store[s]| <= MAX_PACKET
    requires forall j, k :: 0 <= j < |metas| && k in store && k % 0x1_0000 == metas[j].sourceSeqNo ==> sources[j] == Some(store[k])
    ensures forall k <- rec :: k in sent && (k % 0x1_0000 in targets && Due(rec[k].lastNack, now) && sent[k].source in store ==> sent[k].rtp in out)
    ensures forall i :: 0 <= i < |out| ==> out[i].sequenceNumber in targets
    ensures forall i, k :: 0 <= i < |out| && k in rec && k % 0x1_0000 == out[i].sequenceNumber ==> (sent[k].source in store ==> out[i] == sent[k].rtp)
  {
    hide SentInOrder, Carries;
    forall k | k in rec && k % 0x1_0000 in targets && Due(rec[k].lastNack, now) && sent[k].source in store ensures sent[k].rtp in out {
      var m := rec[k].(lastNack := now);
      var j :| 0 <= j < |metas| && metas[j] == m;
      var i := EachAnswered(out, metas, sources, parse, payloadType, ssrc, j);
      SameCarried(out[i], sent[k].rtp, parse(seen[sent[k].source]).value, payloadType, m.targetSeqNo, m.timestamp, ssrc);
    }
    forall i | 0 <= i < |out|
      ensures out[i].sequenceNumber in targets
      ensures forall k <- rec :: k % 0x1_0000 == out[i].sequenceNumber && sent[k].source in store ==> out[i] == sent[k].rtp
    {
      OneAnswer(out, metas, sources, rec, targets, now, sent, seen, store, parse, payloadType, ssrc, i);
    }
  }

  lemma {:induction false} OneAnswer(out: seq<Rtp>, metas: seq<PacketMeta>, sources: seq<Option<seq<u8>>>, rec: map<int, PacketMeta>,
                                     targets: seq<u16>, now: nat, sent: map<int, SentPacket>, seen: map<int, seq<u8>>, store: map<int, seq<u8>>,
                                     parse: seq<u8> -> Option<Rtp>, payloadType: u8, ssrc: u32, i: nat)
    requires |metas| == |sources| && SentInOrder(out, metas, sources, parse, payloadType, ssrc) && i < |out|
    requires Sound(metas, rec, targets, now) && Linked(rec, sent, seen, parse, payloadType, ssrc)
    requires forall s <- store :: s in seen && seen[s] == store[s]
    requires forall j, k :: 0 <= j < |metas| && k in store && k % 0x1_0000 == metas[j].sourceSeqNo ==> sources[j] == Some(store[k])
    ensures out[i].sequenceNumber in targets
    ensures forall k <- rec :: k % 0x1_0000 == out[i].sequenceNumber && sent[k].source in store ==> out[i] == sent[k].rtp
  {
    hide SentInOrder;
    var j := EachAsked(out, metas, sources, parse, payloadType, ssrc, i);
    var m := metas[j];
    assert SoundOne(m, rec, targets, now);
    forall k | k in rec && k % 0x1_0000 == out[i].sequenceNumber && sent[k].source in store ensures out[i] == sent[k].rtp {
      SameCarried(out[i], sent[k].rtp, parse(seen[sent[k].source]).value, payloadType, m.targetSeqNo, m.timestamp, ssrc);
    }
  }

  lemma {:induction false} SameCarried(a: Rtp, b: Rtp, p: Rtp, payloadType: u8, sn: u16, ts: u32, ssrc: u32)
    requires Carries(a, p, payloadType, sn, ts, ssrc) && Carries(b, p, payloadType, sn, ts, ssrc)
    ensures a == b
  {}

  lemma {:induction false} LinkedAt(recorded: map<int, PacketMeta>, sent: map<int, SentPacket>, seen: map<int, seq<u8>>,
                                    parse: seq<u8> -> Option<Rtp>, payloadType: u8, ssrc: u32, k: int)
    requires Linked(recorded, sent, seen, parse, payloadType, ssrc) && k in recorded
    ensures k in sent && Rebuilds(recorded[k], sent[k], seen, parse, payloadType, ssrc)
  {}

  ghost predicate QueueHolds(sources: seq<int>, queue: seq<ExtPacket>, seen: map<int, seq<u8>>, parse: seq<u8> -> Option<Rtp>) {
    && |sources| == |queue|
    && forall i :: 0 <= i < |sources| ==> sources[i] in seen && parse(seen[sources[i]]) == Some(queue[i].rtp)
  }

  lemma {:induction false} QueueKept(sources: seq<int>, queue: seq<ExtPacket>, seen: map<int, seq<u8>>, parse: seq<u8> -> Option<Rtp>,
                                     s: int, pkt: seq<u8>, latest: bool, keyFrame: bool, arrival: int)
    requires QueueHolds(sources, queue, seen, parse) && (s in seen ==> seen[s] == pkt)
    ensures QueueHolds(sources, queue, seen[s := pkt], parse)
    ensures parse(pkt).Some? ==>
      QueueHolds(sources + [s], queue + [ExtPacket(latest, keyFrame, arrival, parse(pkt).value)], seen[s := pkt], parse)
  {}

  lemma {:induction false} NothingCached(store: map<int, seq<u8>>, head: int, maxSteps: nat)
    ensures CacheHolds([], store, head, maxSteps)
  {}

  /** The cache after an arrival holds nothing else than before and the arrival. */
  lemma {:induction false} StoreAccounted(store: map<int, seq<u8>>, head: int, maxSteps: nat, a: Arrived, latest: bool,
                                          store': map<int, seq<u8>>, head': int, seen: map<int, seq<u8>>)
    requires CachedNext(store, head, maxSteps, a, latest, store', head')
    requires forall s <- store :: s in seen && seen[s] == store[s]
    requires a.source in seen ==> seen[a.source] == a.pkt
    ensures forall s <- store' :: s in seen[a.source := a.pkt] && seen[a.source := a.pkt][s] == store'[s]
  {}

  lemma {:induction false} RefreshedLinked(m: map<int, PacketMeta>, sns: seq<u16>, now: nat, sent: map<int, SentPacket>, seen: map<int, seq<u8>>,
                                           parse: seq<u8> -> Option<Rtp>, payloadType: u8, ssrc: u32)
    requires Linked(m, sent, seen, parse, payloadType, ssrc)
    ensures Linked(Refreshed(m, sns, now), sent, seen, parse, payloadType, ssrc)
  {}

  lemma {:induction false} NumberOf(base: int, sn: u16)
    ensures (base + Distance(sn, base % 0x1_0000)) % 0x1_0000 == sn
    ensures (base - Distance(base % 0x1_0000, sn)) % 0x1_0000 == sn
  {}

  /** The record of one number is enough to rebuild what was sent under it. */
  ghost predicate Rebuilds(m: PacketMeta, p: SentPacket, seen: map<int, seq<u8>>, parse: seq<u8> -> Option<Rtp>, payloadType: u8, ssrc: u32) {
    && p.source % 0x1_0000 == m.sourceSeqNo
    && p.source in seen && parse(seen[p.source]).Some?
    && Carries(p.rtp, parse(seen[p.source]).value, payloadType, m.targetSeqNo, m.timestamp, ssrc)
  }

  ghost predicate Linked(recorded: map<int, PacketMeta>, sent: map<int, SentPacket>, seen: map<int, seq<u8>>,
                         parse: seq<u8> -> Option<Rtp>, payloadType: u8, ssrc: u32) {
    forall k <- recorded :: k in sent && Rebuilds(recorded[k], sent[k], seen, parse, payloadType, ssrc)
  }

  /** What can be asked for again has been given to the write stream. */
  ghost predicate Delivered(recorded: map<int, PacketMeta>, sent: map<int, SentPacket>, written: seq<Rtp>) {
    forall k <- recorded :: k in sent && sent[k].rtp in written
  }

  lemma {:induction false} StillDelivered(before: map<int, PacketMeta>, after: map<int, PacketMeta>, sent: map<int, SentPacket>,
                                          written: seq<Rtp>, more: seq<Rtp>)
    requires Delivered(before, sent, written) && after.Keys <= before.Keys
    ensures Delivered(after, sent, written + more)
  {}

  lemma {:induction false} DeliveredAfter(before: map<int, PacketMeta>, after: map<int, PacketMeta>, head: int,
                                          sent0: map<int, SentPacket>, sent1: map<int, SentPacket>, written: seq<Rtp>, meta: PacketMeta, now: SentPacket)
    requires Delivered(before, sent0, written) && OnlyAdds(before, after, head, meta)
    requires sent1 == if head in after && after[head] == meta then sent0[head := now] else sent0
    ensures Delivered(after, sent1, written + [now.rtp])
  {
  }

  lemma {:induction false} StillLinked(recorded: map<int, PacketMeta>, sent: map<int, SentPacket>, before: map<int, seq<u8>>, after: map<int, seq<u8>>,
                                       parse: seq<u8> -> Option<Rtp>, payloadType: u8, ssrc: u32)
    requires Linked(recorded, sent, before, parse, payloadType, ssrc)
    requires forall s <- before :: s in after && after[s] == before[s]
    ensures Linked(recorded, sent, after, parse, payloadType, ssrc)
  {}

  lemma {:induction false} ForwardedAs(s1: TrackState, s0: TrackState, video: bool, p: ExtPacket, onLayer: bool, o: Outcome)
    requires o == WriteStep(s0, Simple, video, p, onLayer).1 && o.Forwarded?
    ensures o.sent.source == p
  {}

  lemma {:induction false} RefreshedHolds(deliveries: seq<Delivery>, m: map<int, PacketMeta>, sent: map<int, SentPacket>, head: int, max: nat,
                                          sns: seq<u16>, now: nat)
    requires RecordHolds(deliveries, m, sent, head, max)
    ensures RecordHolds(deliveries, Refreshed(m, sns, now), sent, head, max) && Refreshed(m, sns, now).Keys == m.Keys
  {}

  lemma {:induction false} NothingDelivered(recorded: map<int, PacketMeta>, sent: map<int, SentPacket>, head: int, max: nat)
    ensures RecordHolds([], recorded, sent, head, max)
  {}

  /** Sending one packet keeps every record sufficient to rebuild what was sent under it, given to the write
      stream, and where the window promises. */
  lemma {:induction false} SendKeeps(deliveries: seq<Delivery>, before: map<int, PacketMeta>, sent0: map<int, SentPacket>, base: int, max: nat,
                                     d: Delivery, after: map<int, PacketMeta>, sent1: map<int, SentPacket>, head: int, meta: PacketMeta,
                                     written: seq<Rtp>, seen: map<int, seq<u8>>, parse: seq<u8> -> Option<Rtp>, payloadType: u8, ssrc: u32, p: Rtp)
    requires Linked(before, sent0, seen, parse, payloadType, ssrc) && Delivered(before, sent0, written)
    requires RecordHolds(deliveries, before, sent0, base, max) && Records(before, base, after, head, max, d.isHead, meta)
    requires d.number == head && d.advances == (d.isHead && head > base)
    requires sent1 == if head in after && after[head] == meta then sent0[head := d.packet] else sent0
    requires d.packet.source in seen && parse(seen[d.packet.source]) == Some(p) && WellFormed(seen[d.packet.source], d.packet.source)
    requires ReadsSequenceNumber(parse) && meta == PacketMeta(p.sequenceNumber, meta.targetSeqNo, meta.timestamp, 0, 0, 0)
    requires Carries(d.packet.rtp, p, payloadType, meta.targetSeqNo, meta.timestamp, ssrc)
    ensures Linked(after, sent1, seen, parse, payloadType, ssrc) && Delivered(after, sent1, written + [d.packet.rtp])
    ensures RecordHolds(deliveries + [d], after, sent1, head, max)
  {
    hide Linked, Delivered, RecordHolds, ReadsSequenceNumber, WellFormed, Carries, OnlyAdds, Advances;
    DeliveredAfter(before, after, head, sent0, sent1, written, meta, d.packet);
    LinkedAfter(before, after, head, sent0, sent1, seen, parse, payloadType, ssrc, p, d.packet, meta);
    DeliveryKept(deliveries, before, sent0, base, max, d, after, sent1, head, meta);
  }

  lemma {:induction false} LinkedAfter(before: map<int, PacketMeta>, after: map<int, PacketMeta>, head: int,
                                       sent0: map<int, SentPacket>, sent1: map<int, SentPacket>, seen: map<int, seq<u8>>,
                                       parse: seq<u8> -> Option<Rtp>, payloadType: u8, ssrc: u32, p: Rtp, now: SentPacket, meta: PacketMeta)
    requires Linked(before, sent0, seen, parse, payloadType, ssrc) && OnlyAdds(before, after, head, meta)
    requires sent1 == if head in after && after[head] == meta then sent0[head := now] else sent0
    requires Carries(now.rtp, p, payloadType, meta.targetSeqNo, meta.timestamp, ssrc)
    requires now.source in seen && parse(seen[now.source]) == Some(p) && WellFormed(seen[now.source], now.source) && ReadsSequenceNumber(parse)
    requires meta.sourceSeqNo == p.sequenceNumber
    ensures Linked(after, sent1, seen, parse, payloadType, ssrc)
  {}
}
