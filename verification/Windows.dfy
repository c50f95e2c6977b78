/** The two windows a retransmission has to hit: which arrivals of a run the cache still holds, and which
    packets sent the sequencer still finds. */
module Windows {
  import opened Numbers
  import opened BucketRing
  import opened Sequencers
  import opened DownTracks
  import opened SubscriberTracks

  /** A packet from the publisher: its extended number, whether the cache took it, and whether it left the
      slots of the packets before it where they were. */
  datatype Arrived = Arrived(source: int, pkt: seq<u8>, accepted: bool, aligned: bool)

  /** What is known about one packet sent: the extended number of its source packet and the packet as it
      went to the write stream. */
  datatype SentPacket = SentPacket(source: int, rtp: Rtp)

  /** A packet sent, under an extended number if it is a head packet, and whether the number is larger than
      all before. */
  datatype Delivery = Delivery(number: int, packet: SentPacket, isHead: bool, advances: bool)

  // ---------------------------------------------------------------- the cache

  /** The i-th arrival was taken, is within the ring behind the head, and since then the ring has stayed
      aligned: no gap over the last slot, and no repetition of the head. */
  ghost predicate StillCached(arrivals: seq<Arrived>, i: int, head: int, maxSteps: nat) {
    && 0 <= i < |arrivals| && arrivals[i].accepted && head - arrivals[i].source <= maxSteps
    && forall j :: i < j < |arrivals| ==> arrivals[j].aligned
  }

  ghost predicate CacheHolds(arrivals: seq<Arrived>, store: map<int, seq<u8>>, head: int, maxSteps: nat) {
    forall i :: StillCached(arrivals, i, head, maxSteps) ==> arrivals[i].source in store && store[arrivals[i].source] == arrivals[i].pkt
  }

  /** The cache after a packet that advances the head, and after a late one. */
  ghost predicate CachedNext(store: map<int, seq<u8>>, head: int, maxSteps: nat, a: Arrived, latest: bool, store': map<int, seq<u8>>, head': int) {
    if latest then
      && head' == a.source >= head && a.accepted
      && store' == (if a.aligned then map k | k in store && k + maxSteps >= head' :: store[k] else map[])[a.source := a.pkt]
    else
      && head' == head && a.aligned && store' == if a.accepted then store[a.source := a.pkt] else store
  }

  /** One more arrival, of a number that has not stood for other bytes. */
  lemma {:induction false} ArrivalKept(arrivals: seq<Arrived>, store: map<int, seq<u8>>, head: int, maxSteps: nat,
                                       a: Arrived, latest: bool, store': map<int, seq<u8>>, head': int)
    requires CacheHolds(arrivals, store, head, maxSteps) && CachedNext(store, head, maxSteps, a, latest, store', head')
    requires forall i :: 0 <= i < |arrivals| && arrivals[i].source == a.source ==> arrivals[i].pkt == a.pkt
    ensures CacheHolds(arrivals + [a], store', head', maxSteps)
  {
    var all := arrivals + [a];
    forall i | StillCached(all, i, head', maxSteps) ensures all[i].source in store' && store'[all[i].source] == all[i].pkt {
      if i < |arrivals| {
        assert all[|arrivals|].aligned;
        forall j | i < j < |arrivals| ensures arrivals[j].aligned { assert all[j] == arrivals[j]; }
        assert StillCached(arrivals, i, head, maxSteps);
      }
    }
  }

  // ---------------------------------------------------------------- the sequencer

  /** The i-th packet sent was a head packet, is among the last max - 1 numbers, and since then every packet
      sent has advanced the head: no late packet, and no number sent twice. */
  ghost predicate StillRecorded(deliveries: seq<Delivery>, i: int, head: int, max: nat) {
    && 0 <= i < |deliveries| && deliveries[i].isHead && head - deliveries[i].number + 2 <= max
    && forall j :: i < j < |deliveries| ==> deliveries[j].advances
  }

  ghost predicate RecordHolds(deliveries: seq<Delivery>, recorded: map<int, PacketMeta>, sent: map<int, SentPacket>, head: int, max: nat) {
    && (forall i :: 0 <= i < |deliveries| && deliveries[i].isHead ==> deliveries[i].number <= head)
    && forall i :: StillRecorded(deliveries, i, head, max) ==>
         deliveries[i].number in recorded && deliveries[i].number in sent && sent[deliveries[i].number] == deliveries[i].packet
  }

  /** One more packet sent, under the number `head'` if it is a head packet. */
  lemma {:induction false} DeliveryKept(deliveries: seq<Delivery>, recorded: map<int, PacketMeta>, sent: map<int, SentPacket>, head: int, max: nat,
                                        d: Delivery, recorded': map<int, PacketMeta>, sent': map<int, SentPacket>, head': int, meta: PacketMeta)
    requires RecordHolds(deliveries, recorded, sent, head, max) && Records(recorded, head, recorded', head', max, d.isHead, meta)
    requires d.number == head' && d.advances == (d.isHead && head' > head)
    requires sent' == if head' in recorded' && recorded'[head'] == meta then sent[head' := d.packet] else sent
    ensures RecordHolds(deliveries + [d], recorded', sent', head', max)
  {
    var all := deliveries + [d];
    forall i | StillRecorded(all, i, head', max)
      ensures all[i].number in recorded' && all[i].number in sent' && sent'[all[i].number] == all[i].packet
    {
      if i < |deliveries| {
        assert all[|deliveries|].advances;
        forall j | i < j < |deliveries| ensures deliveries[j].advances { assert all[j] == deliveries[j]; }
        assert StillRecorded(deliveries, i, head, max);
      }
    }
  }
}
