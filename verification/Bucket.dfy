/** The packet cache of a publisher: a byte ring addressed relative to the newest sequence number,
    proved against a map from extended sequence numbers to packets. */
module BucketRing {
  import opened Numbers
  import opened Wrappers

  const SLOT: nat := 1500
  const MAX_PACKET: nat := 1498

  datatype Error = PacketNotFound | BufferTooSmall | PacketTooOld | RtxPacket

  /** How far `newer` is ahead of `older`, counting through the wrap. */
  function Distance(newer: u16, older: u16): (d: u16)
    ensures d == Sub16(newer, older)
  {
    if newer < older then 65535 - older + newer + 1 else newer - older
  }

  // ---------------------------------------------------------------- ring addresses

  /** The skip loop of add_packet wraps one slot earlier than push does. */
  function Skip(step: nat, maxSteps: nat, n: nat): nat {
    if n == 0 then step
    else if Skip(step, maxSteps, n - 1) + 1 >= maxSteps then 0
    else Skip(step, maxSteps, n - 1) + 1
  }

  /** The step after a write. */
  function Next(step: nat, maxSteps: nat): nat { if step == maxSteps then 0 else step + 1 }

  /** A gap that does not walk over the last slot. */
  predicate Clear(step: nat, maxSteps: nat, d: nat) {
    d == 1 || step == maxSteps || step + d - 1 < maxSteps
  }

  lemma {:induction false} SkipValue(step: nat, maxSteps: nat, n: nat)
    requires step <= maxSteps && n <= maxSteps
    ensures Skip(step, maxSteps, n)
            == if n == 0 then step else if step == maxSteps then n - 1 else if step + n < maxSteps then step + n else step + n - maxSteps
  {
    if n > 0 { SkipValue(step, maxSteps, n - 1); }
  }

  /** Within one turn of the ring, addresses stay aligned exactly when the gap is clear. */
  lemma {:induction false} AlignedIffClear(step: nat, maxSteps: nat, d: nat)
    requires step <= maxSteps && 1 <= d <= maxSteps + 1
    ensures Skip(step, maxSteps, d - 1) == (step + d - 1) % (maxSteps + 1) <==> Clear(step, maxSteps, d)
  {
    SkipValue(step, maxSteps, d - 1);
    ModOnce(step + d - 1, maxSteps + 1);
  }

  lemma {:induction false} ModOnce(x: nat, n: nat)
    requires x < 2 * n
    ensures x % n == if x < n then x else x - n
  {
  }

  /** The slot of number k: one behind `step` for the head, one further back for each number before it. */
  function SlotOf(step: int, maxSteps: int, head: int, k: int): int {
    var pos := step - 1 - (head - k);
    if pos < 0 then pos + maxSteps + 1 else pos
  }

  // ---------------------------------------------------------------- slot contents

  ghost predicate WellFormed(pkt: seq<u8>, k: int) {
    4 <= |pkt| <= MAX_PACKET && ReadBe16(pkt, 2) == k % 0x1_0000
  }

  ghost predicate Holds(bytes: seq<u8>, pos: int, pkt: seq<u8>) {
    && 0 <= pos && SLOT * pos + SLOT <= |bytes| && |pkt| <= MAX_PACKET
    && ReadBe16(bytes, SLOT * pos) == |pkt|
    && bytes[SLOT * pos + 2..SLOT * pos + 2 + |pkt|] == pkt
  }

  /** Two buffers agree outside one slot. */
  ghost predicate AgreeOutside(a: seq<u8>, b: seq<u8>, pos: int) {
    |a| == |b| && forall i :: 0 <= i < |a| && !(SLOT * pos <= i < SLOT * pos + SLOT) ==> a[i] == b[i]
  }

  /** What push and set make of the buffer: the length, then the bytes of the packet. */
  function Written(bytes: seq<u8>, off: nat, pkt: seq<u8>): seq<u8>
    requires off + 2 + |pkt| <= |bytes| && |pkt| < 0x1_0000
  {
    bytes[..off] + Be16(|pkt|) + pkt + bytes[off + 2 + |pkt|..]
  }

  ghost predicate Confined(bytes: seq<u8>, pos: nat, pkt: seq<u8>)
    requires SLOT * pos + 2 + |pkt| <= |bytes| && |pkt| < 0x1_0000
  {
    AgreeOutside(bytes, Written(bytes, SLOT * pos, pkt), pos)
  }

  /** Writes of a given length stay within their slot, whatever the bytes, exactly up to MAX_PACKET;
      longer packets run into the next slot. */
  lemma {:induction false} ConfinedIff(pos: nat, total: nat, n: nat)
    requires SLOT * pos + 2 + n <= total && n < 0x1_0000
    ensures (forall bytes: seq<u8>, pkt: seq<u8> :: |bytes| == total && |pkt| == n ==> Confined(bytes, pos, pkt)) <==> n <= MAX_PACKET
  {
    if n > MAX_PACKET {
      var bytes: seq<u8> := seq(total, _ => 0);
      var pkt: seq<u8> := seq(n, _ => 1);
      var i := SLOT * pos + SLOT;
      assert Written(bytes, SLOT * pos, pkt)[i] == pkt[i - SLOT * pos - 2] == 1;
      assert bytes[i] == 0 && !Confined(bytes, pos, pkt);
    } else {
      forall bytes: seq<u8>, pkt: seq<u8> | |bytes| == total && |pkt| == n ensures Confined(bytes, pos, pkt) {
        var after := Written(bytes, SLOT * pos, pkt);
        assert forall i :: 0 <= i < SLOT * pos ==> after[i] == bytes[i];
        assert forall i :: SLOT * pos + SLOT <= i < total ==> after[i] == bytes[i];
      }
    }
  }

  /** The number a slot is found under: bytes 2 and 3 of the packet it holds. */
  function StoredSn(bytes: seq<u8>, pos: nat): u16
    requires SLOT * pos + SLOT <= |bytes|
  {
    ReadBe16(bytes, SLOT * pos + 4)
  }

  lemma {:induction false} Sized(pkt: seq<u8>, k: int)
    requires WellFormed(pkt, k)
    ensures 4 <= |pkt| <= MAX_PACKET
  {}

  lemma {:induction false} WellFormedFor(pkt: seq<u8>, sn: u16, k: int)
    requires WellFormed(pkt, sn) && k % 0x1_0000 == sn
    ensures WellFormed(pkt, k)
  {}

  /** The slot written behind the skipped ones is the one addressed for the new head. */
  lemma {:induction false} NewHeadSlot(step: nat, maxSteps: nat, head: int, d: nat)
    requires step <= maxSteps
    ensures var at := Skip(step, maxSteps, if d == 0 then 0 else d - 1);
            at <= maxSteps && SlotOf(Next(at, maxSteps), maxSteps, head + d, head + d) == at
  {
    SkipBound(step, maxSteps, if d == 0 then 0 else d - 1);
  }

  lemma {:induction false} SkipBound(step: nat, maxSteps: nat, n: nat)
    requires step <= maxSteps
    ensures Skip(step, maxSteps, n) <= maxSteps
  {
    if n > 0 { SkipBound(step, maxSteps, n - 1); }
  }

  /** The packets of a map all lie in the window and stand in their slots. */
  ghost predicate Stored(bytes: seq<u8>, step: nat, maxSteps: nat, head: int, m: map<int, seq<u8>>) {
    forall k <- m :: head - maxSteps <= k <= head && WellFormed(m[k], k) && Holds(bytes, SlotOf(step, maxSteps, head, k), m[k])
  }

  lemma {:induction false} StoredSized(bytes: seq<u8>, step: nat, maxSteps: nat, head: int, m: map<int, seq<u8>>)
    requires Stored(bytes, step, maxSteps, head, m)
    ensures forall k <- m :: |m[k]| <= MAX_PACKET
  {}

  /** Writing one packet of the window into its slot leaves all the others in theirs. */
  lemma {:induction false} WriteKeeps(a: seq<u8>, b: seq<u8>, step: nat, maxSteps: nat, head: int, m: map<int, seq<u8>>, k: int, pkt: seq<u8>)
    requires Stored(a, step, maxSteps, head, m)
    requires head - maxSteps <= k <= head && WellFormed(pkt, k)
    requires AgreeOutside(a, b, SlotOf(step, maxSteps, head, k)) && Holds(b, SlotOf(step, maxSteps, head, k), pkt)
    ensures Stored(b, step, maxSteps, head, m[k := pkt])
  {
  }

  lemma {:induction false} StoredFound(bytes: seq<u8>, step: nat, maxSteps: nat, head: int, m: map<int, seq<u8>>, k: int)
    requires Stored(bytes, step, maxSteps, head, m) && k in m
    ensures head - maxSteps <= k <= head && Holds(bytes, SlotOf(step, maxSteps, head, k), m[k])
    ensures StoredSn(bytes, SlotOf(step, maxSteps, head, k)) == k % 0x1_0000
  {
  }

  /** The number read off the wire determines the extended number within one cycle behind the head. */
  lemma {:induction false} LateNumber(head: int, sn: u16, k: int)
    requires head - 0x1_0000 < k <= head
    ensures k % 0x1_0000 == sn <==> k == head - Distance(head % 0x1_0000, sn)
  {}

  lemma {:induction false} HeadNumber(head: int, sn: u16)
    ensures (head + Distance(sn, head % 0x1_0000)) % 0x1_0000 == sn
  {}

  /** Every slot holds what was written in it last, or is blank. */
  ghost predicate SlotsHold(bytes: seq<u8>, maxSteps: nat, written: map<int, seq<u8>>) {
    |bytes| >= SLOT * (maxSteps + 1) && forall pos: nat :: pos <= maxSteps ==> SlotHolds(bytes, pos, written)
  }

  ghost predicate SlotHolds(bytes: seq<u8>, pos: nat, written: map<int, seq<u8>>)
    requires SLOT * pos + SLOT <= |bytes|
  {
    if pos in written then 4 <= |written[pos]| && Holds(bytes, pos, written[pos])
    else ReadBe16(bytes, SLOT * pos) == 0 && StoredSn(bytes, pos) == 0
  }

  /** The number a slot is found under: a blank one passes for number 0. */
  ghost function NumberIn(written: map<int, seq<u8>>, pos: int): u16 {
    if pos in written && |written[pos]| >= 4 then ReadBe16(written[pos], 2) else 0
  }

  lemma {:induction false} SlotNumber(bytes: seq<u8>, maxSteps: nat, written: map<int, seq<u8>>, pos: nat)
    requires SlotsHold(bytes, maxSteps, written) && pos <= maxSteps
    ensures StoredSn(bytes, pos) == NumberIn(written, pos)
  {
    assert SlotHolds(bytes, pos, written);
    if pos in written {
      StoredSnOf(bytes, pos, written[pos]);
    }
  }

  lemma {:induction false} StoredSnOf(bytes: seq<u8>, pos: nat, pkt: seq<u8>)
    requires Holds(bytes, pos, pkt) && |pkt| >= 4
    ensures StoredSn(bytes, pos) == ReadBe16(pkt, 2)
  {
    var off := SLOT * pos + 2;
    assert pkt[2] == bytes[off..off + |pkt|][2] == bytes[off + 2];
    assert pkt[3] == bytes[off..off + |pkt|][3] == bytes[off + 3];
  }

  lemma {:induction false} SlotContent(bytes: seq<u8>, maxSteps: nat, written: map<int, seq<u8>>, pos: nat)
    requires SlotsHold(bytes, maxSteps, written) && pos <= maxSteps
    ensures var n := ReadBe16(bytes, SLOT * pos);
            && n <= MAX_PACKET
            && bytes[SLOT * pos + 2..SLOT * pos + 2 + n] == if pos in written then written[pos] else []
    ensures forall pkt :: Holds(bytes, pos, pkt) ==> pkt == if pos in written then written[pos] else []
  {
    assert SlotHolds(bytes, pos, written);
  }

  lemma {:induction false} SlotWritten(before: seq<u8>, after: seq<u8>, maxSteps: nat, written: map<int, seq<u8>>, pos: nat, pkt: seq<u8>)
    requires SlotsHold(before, maxSteps, written) && pos <= maxSteps && 4 <= |pkt|
    requires AgreeOutside(before, after, pos) && Holds(after, pos, pkt)
    ensures SlotsHold(after, maxSteps, written[pos := pkt])
  {
    var w := written[pos := pkt];
    forall q: nat | q <= maxSteps ensures SlotHolds(after, q, w) {
      assert SlotHolds(before, q, written);
      if q != pos {
        var off := SLOT * q;
        assert after[off] == before[off] && after[off + 1] == before[off + 1] && after[off + 4] == before[off + 4] && after[off + 5] == before[off + 5];
        if q in written { HoldsElsewhere(before, after, pos, q, written[q]); }
      }
    }
  }

  lemma {:induction false} HoldsElsewhere(a: seq<u8>, b: seq<u8>, pos: int, other: int, pkt: seq<u8>)
    requires AgreeOutside(a, b, pos) && other != pos && Holds(a, other, pkt)
    ensures Holds(b, other, pkt)
  {
    var off := SLOT * other;
    assert a[off] == b[off] && a[off + 1] == b[off + 1];
    assert forall i :: off + 2 <= i < off + 2 + |pkt| ==> a[i] == b[i];
  }

  /** The slot a number is looked for in, at its distance behind the head. */
  function Address(step: nat, maxSteps: nat, diff: u16): Option<int> {
    var back: int := diff;
    var pos := step - (back + 1) % 0x1_0000;
    if pos >= 0 then Some(pos) else if -pos > maxSteps + 1 then None else Some(maxSteps + pos + 1)
  }

  /** A stored packet with the number asked for is the one at that distance behind the head. */
  lemma {:induction false} Addressed(bytes: seq<u8>, step: nat, maxSteps: nat, head: int, m: map<int, seq<u8>>, sn: u16)
    requires Stored(bytes, step, maxSteps, head, m) && maxSteps <= 0xffff
    ensures var k := head - Distance(head % 0x1_0000, sn);
            forall j :: j in m && j % 0x1_0000 == sn ==>
              j == k && head - maxSteps <= k <= head && Holds(bytes, SlotOf(step, maxSteps, head, k), m[j])
              && StoredSn(bytes, SlotOf(step, maxSteps, head, k)) == sn
  {
    forall j | j in m && j % 0x1_0000 == sn
      ensures j == head - Distance(head % 0x1_0000, sn) && head - maxSteps <= j <= head
              && Holds(bytes, SlotOf(step, maxSteps, head, j), m[j]) && StoredSn(bytes, SlotOf(step, maxSteps, head, j)) == sn
    {
      StoredFound(bytes, step, maxSteps, head, m, j);
      LateNumber(head, sn, j);
    }
  }

  class Bucket {
    const buf: array<u8>
    var init: bool
    var step: nat
    var headSn: u16
    const maxSteps: nat
    /** The extended number of the head, and the packets that can be retrieved. */
    ghost var head: int
    ghost var store: map<int, seq<u8>>
    /** What was written last in each slot. */
    ghost var written: map<int, seq<u8>>

    ghost predicate Valid()
      reads this, buf
    {
      && buf.Length >= SLOT * (maxSteps + 1) && maxSteps <= 0xffff && step <= maxSteps
      && headSn == head % 0x1_0000
      && (!init ==> store == map[])
      && Stored(buf[..], step, maxSteps, head, store)
      && SlotsHold(buf[..], maxSteps, written)
    }

    constructor (length: nat)
      requires SLOT <= length < SLOT * 0x1_0001
      ensures Valid() && fresh(buf) && !init && store == map[] && step == 0 && written == map[]
      ensures maxSteps == length / SLOT - 1 && buf.Length == length
      ensures forall i :: 0 <= i < length ==> buf[i] == 0
    {
      buf := new u8[length](_ => 0);
      init, step, headSn, head, store, written := false, 0, 0, 0, map[], map[];
      maxSteps := length / SLOT - 1;
    }

    /** What a packet that advances the head leaves retrievable of the packets before it. */
    ghost function Retained(d: nat): map<int, seq<u8>>
      reads this
    {
      if 1 <= d && Clear(step, maxSteps, d) then map k | k in store && k + maxSteps >= head + d :: store[k] else map[]
    }

    /** The extended number an arrival stands for, relative to the head. */
    ghost function ExtendedLate(sn: u16): int
      reads this
    {
      Base(sn) - Distance(Base(sn) % 0x1_0000, sn)
    }

    ghost function Base(sn: u16): int
      reads this
    {
      if init then head else sn - 1
    }

    method AddPacket(pkt: seq<u8>, sn: u16, latest: bool) returns (r: Result<seq<u8>, Error>)
      requires Valid() && WellFormed(pkt, sn)
      modifies this`init, this`step, this`headSn, this`head, this`store, this`written, buf
      ensures Valid() && init
      // a packet that advances the head
      ensures latest ==>
        var d := Distance(sn, old(Base(sn)) % 0x1_0000);
        && r == Ok(pkt)
        && head == old(Base(sn)) + d
        && store == old(Retained(d))[head := pkt]
        && step == Next(Skip(old(step), maxSteps, if d == 0 then 0 else d - 1), maxSteps)
        && AgreeOutside(old(buf[..]), buf[..], SlotOf(step, maxSteps, head, head))
        && written == old(written)[SlotOf(step, maxSteps, head, head) := pkt]
      // a late packet
      ensures !latest ==>
        var k := old(ExtendedLate(sn));
        && head == old(Base(sn)) && step == old(step)
        && (if head - k > maxSteps then r == Err(PacketTooOld)
            else if StoredSn(old(buf[..]), SlotOf(step, maxSteps, head, k)) == sn then r == Err(RtxPacket)
            else r == Ok(pkt))
        && (head - k <= maxSteps ==> (r == Err(RtxPacket) <==> NumberIn(old(written), SlotOf(step, maxSteps, head, k)) == sn))
        && written == (if r.Ok? then old(written)[SlotOf(step, maxSteps, head, k) := pkt] else old(written))
        && (r.Ok? ==> store == old(store)[k := pkt] && AgreeOutside(old(buf[..]), buf[..], SlotOf(step, maxSteps, head, k)))
        && (r.Err? ==> store == old(store) && buf[..] == old(buf[..]))
        && (k in old(store) ==> r == Err(RtxPacket))
    {
      hide Holds, AgreeOutside, SlotsHold, ReadBe16, NumberIn;
      if !init {
        headSn := (sn - 1) % 0x1_0000;
        head := sn - 1;
        init := true;
      }
      if !latest {
        r := Set(sn, pkt);
        return;
      }
      r := Advance(sn, pkt);
    }

    /** Moves the head to the number, skipping the slots of the numbers in between. */
    method Advance(sn: u16, pkt: seq<u8>) returns (r: Result<seq<u8>, Error>)
      requires Valid() && init && WellFormed(pkt, sn)
      modifies this`step, this`headSn, this`head, this`store, this`written, buf
      ensures Valid() && r == Ok(pkt)
      ensures head == old(head) + Distance(sn, old(headSn))
      ensures store == old(Retained(Distance(sn, headSn)))[head := pkt]
      ensures var d := Distance(sn, old(headSn));
              step == Next(Skip(old(step), maxSteps, if d == 0 then 0 else d - 1), maxSteps)
      ensures AgreeOutside(old(buf[..]), buf[..], SlotOf(step, maxSteps, head, head))
      ensures written == old(written)[SlotOf(step, maxSteps, head, head) := pkt]
    {
      hide Holds, AgreeOutside, SlotsHold, ReadBe16, Sub16, Stored, WellFormed, Clear;
      var diff := Distance(sn, headSn);
      HeadNumber(head, sn);
      Sized(pkt, sn);
      NewHeadSlot(step, maxSteps, head, diff);
      ghost var kept, step0, before := Retained(diff), step, buf[..];
      headSn := sn;
      SkipSlots(diff);
      r := Push(pkt);
      KeptStored(before, step0, maxSteps, head, store, diff, kept);
      head := head + diff;
      WellFormedFor(pkt, sn, head);
      WriteKeeps(before, buf[..], step, maxSteps, head, kept, head, pkt);
      store := kept[head := pkt];
    }

    method SkipSlots(diff: u16)
      requires step <= maxSteps
      modifies this`step
      ensures step == Skip(old(step), maxSteps, if diff == 0 then 0 else diff - 1) <= maxSteps
    {
      var i := 1;
      while i < diff
        invariant 1 <= i && (i <= diff || i == 1)
        invariant step == Skip(old(step), maxSteps, i - 1) <= maxSteps
      {
        step := step + 1;
        if step >= maxSteps {
          step := 0;
        }
        i := i + 1;
      }
    }

    /** Writes the packet at `step` and moves on. The length check against the capacity cannot fail for
        a packet of at most MAX_PACKET bytes and is left out. */
    method Push(pkt: seq<u8>) returns (r: Result<seq<u8>, Error>)
      requires buf.Length >= SLOT * (maxSteps + 1) && step <= maxSteps && |pkt| <= MAX_PACKET
      requires SlotsHold(buf[..], maxSteps, written) && 4 <= |pkt|
      modifies this`step, this`written, buf
      ensures r == Ok(pkt)
      ensures step == Next(old(step), maxSteps)
      ensures Holds(buf[..], old(step), pkt) && AgreeOutside(old(buf[..]), buf[..], old(step))
      ensures SlotsHold(buf[..], maxSteps, written) && written == old(written)[old(step) := pkt]
    {
      WriteSlot(step, pkt);
      step := step + 1;
      if step > maxSteps {
        step := 0;
      }
      r := Ok(pkt);
    }

    method WriteSlot(pos: nat, pkt: seq<u8>)
      requires pos <= maxSteps && buf.Length >= SLOT * (maxSteps + 1) && |pkt| <= MAX_PACKET
      requires SlotsHold(buf[..], maxSteps, written) && 4 <= |pkt|
      modifies buf, this`written
      ensures Holds(buf[..], pos, pkt) && AgreeOutside(old(buf[..]), buf[..], pos)
      ensures buf[..] == Written(old(buf[..]), SLOT * pos, pkt)
      ensures SlotsHold(buf[..], maxSteps, written) && written == old(written)[pos := pkt]
    {
      hide SlotsHold;
      var off := SLOT * pos;
      buf[off], buf[off + 1] := |pkt| / 0x100, |pkt| % 0x100;
      forall i | 0 <= i < |pkt| { buf[off + 2 + i] := pkt[i]; }
      assert buf[off + 2..off + 2 + |pkt|] == pkt;
      assert buf[..] == Written(old(buf[..]), off, pkt);
      SlotWritten(old(buf[..]), buf[..], maxSteps, written, pos, pkt);
      written := written[pos := pkt];
    }

    method Set(sn: u16, pkt: seq<u8>) returns (r: Result<seq<u8>, Error>)
      requires Valid() && init && WellFormed(pkt, sn)
      modifies this`store, this`written, buf
      ensures Valid()
      ensures var k := head - Distance(headSn, sn);
        && (if head - k > maxSteps then r == Err(PacketTooOld)
            else if StoredSn(old(buf[..]), SlotOf(step, maxSteps, head, k)) == sn then r == Err(RtxPacket)
            else r == Ok(pkt))
        && (head - k <= maxSteps ==> (r == Err(RtxPacket) <==> NumberIn(old(written), SlotOf(step, maxSteps, head, k)) == sn))
        && written == (if r.Ok? then old(written)[SlotOf(step, maxSteps, head, k) := pkt] else old(written))
        && (r.Ok? ==> store == old(store)[k := pkt] && AgreeOutside(old(buf[..]), buf[..], SlotOf(step, maxSteps, head, k)))
        && (r.Err? ==> store == old(store) && buf[..] == old(buf[..]))
        && (k in old(store) ==> r == Err(RtxPacket))
    {
      hide Stored, Holds, AgreeOutside, SlotsHold, ReadBe16, Written, Distance, Sub16, NumberIn;
      var diff := Distance(headSn, sn);
      LateNumber(head, sn, head - diff);
      if diff > maxSteps {
        if head - diff in store { StoredFound(buf[..], step, maxSteps, head, store, head - diff); }
        return Err(PacketTooOld);
      }
      ghost var k, before := head - diff, buf[..];
      var pos: int := step - (diff + 1);
      if pos < 0 {
        pos := maxSteps + pos + 1;
      }
      if k in store { StoredFound(buf[..], step, maxSteps, head, store, k); }
      SlotNumber(buf[..], maxSteps, written, pos);
      if ReadU16(SLOT * pos + 4) == sn {
        return Err(RtxPacket);
      }
      WriteSlot(pos, pkt);
      WriteKeeps(before, buf[..], step, maxSteps, head, store, k, pkt);
      store := store[k := pkt];
      r := Ok(pkt);
    }

    function ReadU16(at: nat): u16
      requires at + 2 <= buf.Length
      reads buf
      ensures ReadU16(at) == ReadBe16(buf[..], at)
    {
      var hi: int := buf[at];
      hi * 0x100 + buf[at + 1]
    }

    /** Returns exactly the packet stored under the number, whenever it is one of the retrievable ones; in
        general, what was written last in the slot addressed, if it carries the number; a slot never
        written passes for an empty packet 0. */
    method Get(sn: u16) returns (r: Option<seq<u8>>)
      requires Valid()
      ensures forall k :: k in store && k % 0x1_0000 == sn ==> r == Some(store[k])
      ensures r == Find(sn)
    {
      hide Stored, AgreeOutside, Holds, WellFormed, ReadBe16, Distance, Sub16, SlotsHold, NumberIn;
      FindsStored(sn);
      var diff := Distance(headSn, sn);
      var back: int := diff;
      var pos: int := step - (back + 1) % 0x1_0000;
      if pos < 0 {
        if -pos > maxSteps + 1 {
          return None;
        }
        pos := maxSteps + pos + 1;
      }
      var off := SLOT * pos;
      SlotNumber(buf[..], maxSteps, written, pos);
      if ReadU16(off + 4) != sn {
        return None;
      }
      var size := ReadU16(off);
      SlotContent(buf[..], maxSteps, written, pos);
      r := Some(buf[off + 2..off + 2 + size]);
    }

    /** What is found under a number: what was written last in its slot, if that carries the number; a slot
        never written passes for an empty packet 0. */
    ghost function Find(sn: u16): Option<seq<u8>>
      reads this
    {
      var at := Address(step, maxSteps, Distance(headSn, sn));
      if at.Some? && NumberIn(written, at.value) == sn then Some(if at.value in written then written[at.value] else []) else None
    }

    lemma {:induction false} FindsStored(sn: u16)
      requires Valid()
      ensures forall k :: k in store && k % 0x1_0000 == sn ==> Find(sn) == Some(store[k])
    {
      hide Stored, AgreeOutside, Holds, WellFormed, ReadBe16, Distance, Sub16, SlotsHold, NumberIn;
      Addressed(buf[..], step, maxSteps, head, store, sn);
      var at := Address(step, maxSteps, Distance(headSn, sn));
      if at.Some? && 0 <= at.value <= maxSteps {
        SlotNumber(buf[..], maxSteps, written, at.value);
        SlotContent(buf[..], maxSteps, written, at.value);
      }
    }

    /** Copies the packet to the front of the caller's buffer. */
    method GetPacket(dst: array<u8>, sn: u16) returns (r: Result<nat, Error>)
      requires Valid() && dst != buf
      modifies dst
      ensures match Find(sn)
        case None => r == Err(PacketNotFound) && dst[..] == old(dst[..])
        case Some(p) =>
          if dst.Length < |p| then r == Err(BufferTooSmall) && dst[..] == old(dst[..])
          else r == Ok(|p|) && dst[..|p|] == p && dst[|p|..] == old(dst[|p|..])
      ensures forall k :: k in store && k % 0x1_0000 == sn ==> Find(sn) == Some(store[k])
      ensures Valid() && (r.Ok? ==> r.value <= dst.Length)
      ensures forall k <- store :: |store[k]| <= MAX_PACKET
    {
      hide Stored, SlotsHold, NumberIn, Distance, Address;
      StoredSized(buf[..], step, maxSteps, head, store);
      var p := Get(sn);
      if p.None? {
        return Err(PacketNotFound);
      }
      var i := |p.value|;
      if dst.Length < i {
        return Err(BufferTooSmall);
      }
      forall j | 0 <= j < i { dst[j] := p.value[j]; }
      r := Ok(i);
    }
  }

  /** What is retained of the store stands in the slots addressed from the new head. */
  lemma {:induction false} KeptStored(bytes: seq<u8>, step: nat, maxSteps: nat, head: int, m: map<int, seq<u8>>, d: nat, kept: map<int, seq<u8>>)
    requires Stored(bytes, step, maxSteps, head, m) && step <= maxSteps
    requires kept == if 1 <= d && Clear(step, maxSteps, d) then map k | k in m && k + maxSteps >= head + d :: m[k] else map[]
    ensures var at := Skip(step, maxSteps, if d == 0 then 0 else d - 1);
            Stored(bytes, Next(at, maxSteps), maxSteps, head + d, kept)
  {
    forall k | k in kept
      ensures var at := Skip(step, maxSteps, d - 1);
              SlotOf(Next(at, maxSteps), maxSteps, head + d, k) == SlotOf(step, maxSteps, head, k)
    {
      KeepsSlot(step, maxSteps, head, d, k);
    }
  }

  /** An earlier packet of the window keeps its slot exactly when the gap is clear. */
  lemma {:induction false} SlotKeptIffClear(step: nat, maxSteps: nat, head: int, d: nat, k: int)
    requires step <= maxSteps && 1 <= d && head + d - maxSteps <= k <= head
    ensures SlotOf(Next(Skip(step, maxSteps, d - 1), maxSteps), maxSteps, head + d, k) == SlotOf(step, maxSteps, head, k)
            <==> Clear(step, maxSteps, d)
  {
    SkipValue(step, maxSteps, d - 1);
  }

  lemma {:induction false} KeepsSlot(step: nat, maxSteps: nat, head: int, d: nat, k: int)
    requires step <= maxSteps && 1 <= d && Clear(step, maxSteps, d)
    requires head + d - maxSteps <= k <= head
    ensures var at := Skip(step, maxSteps, d - 1);
            var step' := Next(at, maxSteps);
            && at == SlotOf(step', maxSteps, head + d, head + d)
            && SlotOf(step', maxSteps, head + d, k) == SlotOf(step, maxSteps, head, k) != at
  {
    SkipValue(step, maxSteps, d - 1);
  }

  /** A repetition of the head (d = 0), or a gap within one turn that is not clear, moves every address on
      by one. */
  lemma {:induction false} ShiftedByOne(step: nat, maxSteps: nat, head: int, d: nat, k: int)
    requires step <= maxSteps && (d == 0 || (1 <= d <= maxSteps + 1 && !Clear(step, maxSteps, d)))
    requires head + d - maxSteps <= k < head
    ensures var at := Skip(step, maxSteps, if d == 0 then 0 else d - 1);
            SlotOf(Next(at, maxSteps), maxSteps, head + d, k) == SlotOf(step, maxSteps, head, k + 1) != at
  {
    if d > 0 { SkipValue(step, maxSteps, d - 1); }
  }

  /** Then an earlier number of the window is found exactly when the slot of the next number carries it;
      never, if the next was stored. */
  lemma {:induction false} ShiftLosesIff(before: seq<u8>, after: seq<u8>, step: nat, maxSteps: nat, head: int, m: map<int, seq<u8>>, d: nat, k: int)
    requires Stored(before, step, maxSteps, head, m) && |before| >= SLOT * (maxSteps + 1)
    requires step <= maxSteps && (d == 0 || (1 <= d <= maxSteps + 1 && !Clear(step, maxSteps, d)))
    requires head + d - maxSteps <= k < head
    requires AgreeOutside(before, after, Skip(step, maxSteps, if d == 0 then 0 else d - 1))
    ensures var at := SlotOf(Next(Skip(step, maxSteps, if d == 0 then 0 else d - 1), maxSteps), maxSteps, head + d, k);
            && 0 <= at <= maxSteps
            && (StoredSn(after, at) == k % 0x1_0000 <==> StoredSn(before, SlotOf(step, maxSteps, head, k + 1)) == k % 0x1_0000)
            && (k + 1 in m ==> StoredSn(after, at) != k % 0x1_0000)
  {
    hide Skip, Stored;
    ShiftedByOne(step, maxSteps, head, d, k);
    var at := SlotOf(step, maxSteps, head, k + 1);
    assert after[SLOT * at + 4] == before[SLOT * at + 4] && after[SLOT * at + 5] == before[SLOT * at + 5];
    if k + 1 in m {
      StoredFound(before, step, maxSteps, head, m, k + 1);
    }
  }

  /** The two wraps disagree: in a ring of three slots, adding 1 and then 3 makes packet 1 unfindable,
      although it is only two numbers behind the head. */
  method GapLosesPacket(one: seq<u8>, three: seq<u8>) returns (found: Option<seq<u8>>)
    requires WellFormed(one, 1) && WellFormed(three, 3)
    ensures found == None
  {
    var b := WithGap(one, three);
    BlankSlot(b, 1);
    found := b.Get(1);
  }

  lemma {:induction false} BlankSlot(b: Bucket, sn: u16)
    requires var at := Address(b.step, b.maxSteps, Distance(b.headSn, sn)); at.Some? && at.value !in b.written && sn != 0
    ensures b.Find(sn) == None
  {
  }

  method WithGap(one: seq<u8>, three: seq<u8>) returns (b: Bucket)
    requires WellFormed(one, 1) && WellFormed(three, 3)
    ensures b.Valid() && Address(b.step, b.maxSteps, Distance(b.headSn, 1)) == Some(1) && b.written == map[0 := three]
  {
    hide Holds, WellFormed, Stored, SlotsHold, AgreeOutside, Skip;
    SkipValue(0, 2, 0);
    SkipValue(1, 2, 1);
    b := new Bucket(3 * SLOT);
    var r := b.AddPacket(one, 1, true);
    assert b.head == 1 && b.step == 1 && b.written == map[0 := one];
    r := b.AddPacket(three, 3, true);
    assert b.headSn == 3 && b.step == 1;
  }

  /** A blank slot passes for packet 0: after packet 1, the late packet 0 is refused as already there, and an
      empty packet is found in its place. */
  method ZeroRefused(zero: seq<u8>, one: seq<u8>) returns (r: Result<seq<u8>, Error>, found: Option<seq<u8>>)
    requires WellFormed(zero, 0) && WellFormed(one, 1)
    ensures r == Err(RtxPacket) && found == Some([])
  {
    hide Holds, WellFormed, Stored, SlotsHold, AgreeOutside, Skip;
    var b := new Bucket(3 * SLOT);
    var s := b.AddPacket(one, 1, true);
    assert Skip(0, 2, 0) == 0 by { SkipValue(0, 2, 0); }
    assert b.head == 1 && b.step == 1 && b.written == map[0 := one];
    r := b.AddPacket(zero, 0, false);
    found := b.Get(0);
  }
}
