/** The ring that remembers, for each sequence number sent to a subscriber, which packet of the
    publisher it was. */
module Sequencers {
  import opened Numbers
  import opened Wrappers

  const IGNORE_RETRANSMISSION: nat := 100

  datatype PacketMeta = PacketMeta(sourceSeqNo: u16, targetSeqNo: u16, timestamp: u32, lastNack: nat, layer: u8, misc: u32)

  // ---------------------------------------------------------------- VP8 meta data

  function PackVp8Meta(tl0Idx: u8, picId: u16): u32 {
    PackedValue(tl0Idx, picId);
    BitOr(Shl(tl0Idx, 16), picId)
  }

  function UnpackVp8Meta(misc: u32): (u8, u16) { (misc / 0x1_0000 % 0x100, misc % 0x1_0000) }

  lemma {:induction false} PackedValue(tl0Idx: u8, picId: u16)
    ensures BitOr(Shl(tl0Idx, 16), picId) == 0x1_0000 * tl0Idx + picId
  {
    Shl13(tl0Idx);
    Shl13(1);
    OrAdds(tl0Idx, picId, 16);
  }

  lemma {:induction false} Vp8MetaRoundTrip(tl0Idx: u8, picId: u16)
    ensures PackVp8Meta(tl0Idx, picId) == 0x1_0000 * tl0Idx + picId
    ensures UnpackVp8Meta(PackVp8Meta(tl0Idx, picId)) == (tl0Idx, picId)
  {
    hide BitOr, Shl;
    PackedValue(tl0Idx, picId);
    Halves(PackVp8Meta(tl0Idx, picId), tl0Idx, picId);
  }

  lemma {:induction false} Halves(x: nat, high: nat, low: nat)
    requires x == 0x1_0000 * high + low && low < 0x1_0000 && high < 0x100
    ensures x / 0x1_0000 % 0x100 == high && x % 0x1_0000 == low
  {
  }

  // ---------------------------------------------------------------- retransmission intervals

  /** A packet is retransmitted unless it was within the last 100 ms. */
  predicate Due(last: nat, now: nat) { last == 0 || now - last > IGNORE_RETRANSMISSION }

  /** One answer: which entry, by the order in which entries were stored, when, and what was returned. */
  datatype Return = Return(id: nat, time: nat, meta: PacketMeta)

  /** Between any two returns of one entry lie more than 100 ms, unless the earlier one was at time 0, which
      the stored time cannot tell from never. */
  ghost predicate Apart(log: seq<Return>) {
    forall i, j :: 0 <= i < j < |log| && log[i].id == log[j].id ==> log[i].time == 0 || log[j].time > log[i].time + 100
  }

  /** The entries in the slots are told apart, and none was returned after the time stored in it. */
  ghost predicate Logged(slots: map<int, PacketMeta>, ids: map<int, nat>, next: nat, log: seq<Return>) {
    && ids.Keys == slots.Keys
    && (forall s <- ids :: ids[s] < next)
    && (forall s <- ids, t <- ids :: ids[s] == ids[t] ==> s == t)
    && (forall i :: 0 <= i < |log| ==> log[i].id < next)
    && (forall i, s :: 0 <= i < |log| && s in ids && ids[s] == log[i].id ==> log[i].time <= slots[s].lastNack)
  }

  lemma {:induction false} StoreLogged(slots: map<int, PacketMeta>, ids: map<int, nat>, next: nat, log: seq<Return>, at: int, meta: PacketMeta)
    requires Logged(slots, ids, next, log)
    ensures Logged(slots[at := meta], ids[at := next], next + 1, log)
  {
  }

  /** The log grows by these answers, given now. */
  ghost predicate Answered(before: seq<Return>, after: seq<Return>, metas: seq<PacketMeta>, now: nat) {
    && |after| == |before| + |metas| && before <= after
    && forall i :: 0 <= i < |metas| ==> after[|before| + i].meta == metas[i] && after[|before| + i].time == now
  }

  lemma {:induction false} NothingAnswered(log: seq<Return>, now: nat)
    ensures Answered(log, log, [], now)
  {
  }

  lemma {:induction false} AnsweredStep(before: seq<Return>, after: seq<Return>, metas: seq<PacketMeta>, now: nat, r: Return)
    requires Answered(before, after, metas, now) && r.time == now
    ensures Answered(before, after + [r], metas + [r.meta], now)
  {
    forall i | 0 <= i <= |metas|
      ensures (after + [r])[|before| + i].meta == (metas + [r.meta])[i] && (after + [r])[|before| + i].time == now
    {
      if i < |metas| { assert (after + [r])[|before| + i] == after[|before| + i]; }
    }
  }

  /** An entry that is due keeps its distance from all its earlier returns. */
  lemma {:induction false} ReturnApart(slots: map<int, PacketMeta>, ids: map<int, nat>, next: nat, log: seq<Return>, s: int, now: nat)
    requires Logged(slots, ids, next, log) && Apart(log) && s in slots && slots[s].lastNack <= now && Due(slots[s].lastNack, now)
    ensures s in ids
    ensures var e := slots[s].(lastNack := now);
            Logged(slots[s := e], ids, next, log + [Return(ids[s], now, e)]) && Apart(log + [Return(ids[s], now, e)])
  {
    var e := slots[s].(lastNack := now);
    var all := log + [Return(ids[s], now, e)];
    assert all[|log|] == Return(ids[s], now, e);
    assert forall i :: 0 <= i < |log| ==> all[i] == log[i];
  }

  // ---------------------------------------------------------------- ring addresses

  function Turn(step: nat, max: nat): nat { if step + 1 >= max then 0 else step + 1 }

  function Turns(step: nat, max: nat, n: nat): nat {
    if n == 0 then step else Turn(Turns(step, max, n - 1), max)
  }

  function SlotOf(step: int, max: int, head: int, k: int): int {
    var pos := step - 1 - (head - k);
    if pos < 0 then pos + max else pos
  }

  lemma {:induction false} TurnsValue(step: nat, max: nat, n: nat)
    requires step < max && n <= max
    ensures Turns(step, max, n) == if step + n < max then step + n else step + n - max
  {
    if n > 0 { TurnsValue(step, max, n - 1); }
  }

  lemma {:induction false} TurnsBound(step: nat, max: nat, n: nat)
    requires step < max || (step == 0 && max == 0)
    ensures Turns(step, max, n) < max || (Turns(step, max, n) == 0 && max == 0)
  {
  }

  /** After the head has moved d numbers on and the new head has been stored, an earlier number is still
      at the slot it was at, and that is not the slot just written. */
  lemma {:induction false} SlotKept(step: nat, max: nat, head: int, d: nat, k: int)
    requires step < max && 1 <= d && head + d - (max - 2) <= k <= head
    ensures var at := Turns(step, max, d - 1);
            && at == SlotOf(Turn(at, max), max, head + d, head + d)
            && SlotOf(Turn(at, max), max, head + d, k) == SlotOf(step, max, head, k) != at
  {
    TurnsValue(step, max, d - 1);
  }

  /** The entries of a map all stand in their slots, under their own numbers. */
  ghost predicate Recorded(seq_: map<int, PacketMeta>, step: nat, max: nat, head: int, m: map<int, PacketMeta>) {
    forall k <- m ::
      && head - k + 2 <= max && k <= head
      && SlotOf(step, max, head, k) in seq_ && seq_[SlotOf(step, max, head, k)] == m[k]
      && m[k].targetSeqNo == k % 0x1_0000
  }

  // ---------------------------------------------------------------- what is found

  datatype Ring = Ring(slots: map<int, PacketMeta>, step: nat, headSn: u16)

  /** The slot in which a number is looked for. */
  function Address(r: Ring, max: nat, sn: u16): Option<int> {
    var s := r.step - Sub16(r.headSn, sn) - 1;
    if s >= 0 then Some(s) else if -s < max then Some(s + max) else None
  }

  /** The slot in which it is found. A slot never written counts as a miss. */
  function Finds(r: Ring, max: nat, sn: u16): Option<int> {
    match Address(r, max, sn)
    case None => None
    case Some(s) => if s in r.slots && r.slots[s].targetSeqNo == sn then Some(s) else None
  }

  /** A late packet is not stored if it is further behind than the ring reaches back from the slot in turn. */
  predicate TooOld(r: Ring, max: nat, offSn: u16) {
    var s := r.step - Sub16(r.headSn, offSn);
    s < 0 && -s >= max
  }

  /** The ring after a packet; before the first one, the head is that packet's own number. */
  function Pushed(r: Ring, max: nat, isHead: bool, meta: PacketMeta): Ring {
    if isHead then
      var inc := Sub16(meta.targetSeqNo, r.headSn);
      var at := Turns(r.step, max, if inc == 0 then 0 else inc - 1);
      Ring(r.slots[at := meta], Turn(at, max), meta.targetSeqNo)
    else if TooOld(r, max, meta.targetSeqNo) then r
    else Ring(r.slots[r.step := meta], Turn(r.step, max), r.headSn)
  }

  /** A late packet that is stored moves every address on by one. */
  lemma {:induction false} LateShifts(r: Ring, max: nat, late: PacketMeta, sn: u16)
    requires r.step < max && !TooOld(r, max, late.targetSeqNo) && 1 <= Sub16(r.headSn, sn) <= max - 2
    ensures Address(Pushed(r, max, false, late), max, sn) == Address(r, max, (sn + 1) % 0x1_0000)
  {
    assert Sub16(r.headSn, (sn + 1) % 0x1_0000) == Sub16(r.headSn, sn) - 1;
  }

  /** So a number recorded before it is still found exactly when it is the head and the late packet has the
      same number, or the slot of the next number carries this one; never, if the next was recorded. */
  lemma {:induction false} LateKeepsIff(r: Ring, max: nat, head: int, m: map<int, PacketMeta>, k: int, late: PacketMeta)
    requires Recorded(r.slots, r.step, max, head, m) && r.headSn == head % 0x1_0000 && r.step < max <= 0x1_0000
    requires k in m && !TooOld(r, max, late.targetSeqNo)
    ensures var found := Finds(Pushed(r, max, false, late), max, k % 0x1_0000).Some?;
            if k == head then found <==> late.targetSeqNo == r.headSn
            else && (found <==> SlotOf(r.step, max, head, k + 1) in r.slots && r.slots[SlotOf(r.step, max, head, k + 1)].targetSeqNo == k % 0x1_0000)
                 && (k + 1 in m ==> !found)
  {
    var sn := k % 0x1_0000;
    Behind(head, k);
    if k < head {
      Behind(head, k + 1);
      LateShifts(r, max, late, sn);
    }
  }

  lemma {:induction false} Behind(head: int, k: int)
    requires head - 0x1_0000 < k <= head
    ensures Sub16(head % 0x1_0000, k % 0x1_0000) == head - k && (k + 1) % 0x1_0000 == (k % 0x1_0000 + 1) % 0x1_0000
  {}

  class Sequencer {
    var init: bool
    const max: nat
    var seq_: map<int, PacketMeta>
    var step: nat
    var headSn: u16
    /** The extended number of the head, and the entries that can be looked up. */
    ghost var head: int
    ghost var recorded: map<int, PacketMeta>
    /** The time of the latest request, and every answer given. */
    ghost var clock: nat
    ghost var log: seq<Return>
    /** Which entry each slot holds, by the order in which they were stored. */
    ghost var ids: map<int, nat>
    ghost var next: nat

    ghost predicate Valid()
      reads this
    {
      && (step < max || (step == 0 && max == 0)) && max <= 0x1_0000
      && headSn == head % 0x1_0000
      && (!init ==> recorded == map[])
      && Recorded(seq_, step, max, head, recorded)
      && (forall s <- seq_ :: seq_[s].lastNack <= clock)
      && Logged(seq_, ids, next, log) && Apart(log)
    }

    ghost function State(): Ring
      reads this
    {
      Ring(seq_, step, headSn)
    }

    /** The ring as a packet numbered offSn finds it. */
    ghost function Before(offSn: u16): Ring
      reads this
    {
      if init then State() else State().(headSn := offSn)
    }

    constructor (maxTrack: nat)
      requires maxTrack <= 0x1_0000
      ensures Valid() && max == maxTrack && !init && recorded == map[] && clock == 0 && log == [] && State() == Ring(map[], 0, 0)
    {
      init, max, seq_, step, headSn := false, maxTrack, map[], 0, 0;
      head, recorded, clock := 0, map[], 0;
      log, ids, next := [], map[], 0;
    }

    /** What a packet that advances the head by d leaves to be looked up. */
    ghost function Kept(d: nat): map<int, PacketMeta>
      reads this
    {
      if d == 0 then map[] else map k | k in recorded && k + max >= head + d + 2 :: recorded[k]
    }

    ghost function Base(offSn: u16): int
      reads this
    {
      if init then head else offSn
    }

    method Push(sn: u16, offSn: u16, timestamp: u32, layer: u8, isHead: bool) returns (r: Option<PacketMeta>)
      requires Valid()
      modifies this`init, this`seq_, this`step, this`headSn, this`head, this`recorded, this`ids, this`next
      ensures Valid() && init
      ensures State() == Pushed(old(Before(offSn)), max, isHead, PacketMeta(sn, offSn, timestamp, 0, layer, 0))
      ensures var meta := PacketMeta(sn, offSn, timestamp, 0, layer, 0);
              var d := Sub16(offSn, old(Base(offSn)));
              isHead ==>
                && head == old(Base(offSn)) + d && headSn == offSn
                && recorded == if max >= 2 then old(Kept(d))[head := meta] else map[]
      // a late packet takes the next slot, unless it is too old: every address moves on by one
      ensures var meta := PacketMeta(sn, offSn, timestamp, 0, layer, 0);
              !isHead ==>
                && head == old(Base(offSn))
                && (if TooOld(old(Before(offSn)), max, offSn) then recorded == old(recorded)
                    else recorded == if max >= 2 && offSn == headSn then map[head := meta] else map[])
      // what is returned is the entry in the slot in turn, unless the packet is too far behind the head
      ensures var behind := Sub16(old(Before(offSn)).headSn, offSn);
              r == if !isHead && behind > old(step) && behind - old(step) >= max then None
                   else if step in seq_ then Some(seq_[step]) else None
    {
      hide Logged, Apart, Recorded, Sub16;
      if !init {
        headSn := offSn;
        head := offSn;
        init := true;
        NothingRecorded(seq_, step, max, head);
      }
      var meta := PacketMeta(sn, offSn, timestamp, 0, layer, 0);
      if isHead {
        PushHead(meta);
      } else {
        var stored := PushLate(meta);
        if !stored {
          return None;
        }
      }
      r := if step in seq_ then Some(seq_[step]) else None;
    }

    method PushHead(meta: PacketMeta)
      requires Valid() && init && meta.lastNack == 0
      modifies this`seq_, this`step, this`headSn, this`head, this`recorded, this`ids, this`next
      ensures Valid()
      ensures State() == Pushed(old(State()), max, true, meta)
      ensures var d := Sub16(meta.targetSeqNo, old(head));
              && head == old(head) + d
              && recorded == if max >= 2 then old(Kept(d))[head := meta] else map[]
    {
      hide Sub16, Recorded, Logged, Apart, Finds, Address;
      var inc := Sub16(meta.targetSeqNo, headSn);
      ghost var kept, step0 := Kept(inc), step;
      Skip(inc);
      NewHead(head, meta.targetSeqNo);
      KeptRecorded(seq_, step0, max, head, recorded, inc, kept, meta);
      headSn := meta.targetSeqNo;
      head := head + inc;
      recorded := if max >= 2 then kept[head := meta] else map[];
      NothingRecorded(seq_[step := meta], Turn(step, max), max, head);
      StoreLogged(seq_, ids, next, log, step, meta);
      Store(meta);
    }

    method PushLate(meta: PacketMeta) returns (stored: bool)
      requires Valid() && init && meta.lastNack == 0
      modifies this`seq_, this`step, this`recorded, this`ids, this`next
      ensures Valid() && stored == !TooOld(old(State()), max, meta.targetSeqNo)
      ensures State() == Pushed(old(State()), max, false, meta)
      ensures recorded == if !stored then old(recorded) else if max >= 2 && meta.targetSeqNo == headSn then map[head := meta] else map[]
    {
      hide Logged, Apart;
      var s: int := step - Sub16(headSn, meta.targetSeqNo);
      stored := !(s < 0 && -s >= max);
      if stored {
        recorded := if max >= 2 && meta.targetSeqNo == headSn then map[head := meta] else map[];
        StoreLogged(seq_, ids, next, log, step, meta);
        Store(meta);
      }
    }

    method Store(meta: PacketMeta)
      modifies this`seq_, this`step, this`ids, this`next
      ensures seq_ == old(seq_)[old(step) := meta] && step == Turn(old(step), max)
      ensures ids == old(ids)[old(step) := old(next)] && next == old(next) + 1
    {
      var curStep := step;
      seq_ := seq_[curStep := meta];
      ids, next := ids[curStep := next], next + 1;
      step := step + 1;
      if step >= max {
        step := 0;
      }
    }

    method Skip(inc: u16)
      requires step < max || (step == 0 && max == 0)
      modifies this`step
      ensures step == Turns(old(step), max, if inc == 0 then 0 else inc - 1)
      ensures step < max || (step == 0 && max == 0)
    {
      var i := 1;
      while i < inc
        invariant 1 <= i && (i <= inc || i == 1)
        invariant step == Turns(old(step), max, i - 1)
        invariant step < max || (step == 0 && max == 0)
      {
        step := step + 1;
        if step >= max {
          step := 0;
        }
        i := i + 1;
      }
    }

    /** The entries asked for that are due, in the order asked. A slot never written counts as a miss. */
    method GetSeqNoPairs(seqNos: seq<u16>, refTime: nat) returns (metas: seq<PacketMeta>)
      requires Valid() && refTime >= clock
      modifies this`seq_, this`recorded, this`clock, this`log
      ensures Valid() && clock == refTime
      ensures Answered(old(log), log, metas, refTime)
      ensures recorded == Refreshed(old(recorded), seqNos, refTime)
      ensures Complete(metas, old(recorded), seqNos, refTime) && Sound(metas, old(recorded), seqNos, refTime)
    {
      hide Recorded, Logged, Apart, Finds, Address, Refreshed, Complete, Sound, Answers, Answered;
      NothingAnswered(log, refTime);
      metas := [];
      clock := refTime;
      var i := 0;
      NoneRefreshed(recorded, refTime);
      while i < |seqNos|
        invariant 0 <= i <= |seqNos| && Valid() && clock == refTime
        invariant recorded == Refreshed(old(recorded), seqNos[..i], refTime)
        invariant Answered(old(log), log, metas, refTime)
        invariant Complete(metas, old(recorded), seqNos[..i], refTime) && Sound(metas, old(recorded), seqNos[..i], refTime)
      {
        var m := Lookup(seqNos[i], refTime);
        AnswerStep(old(recorded), seqNos, i, refTime, metas, m);
        if m.Some? {
          AnsweredStep(old(log), log[..|log| - 1], metas, refTime, log[|log| - 1]);
          metas := metas + [m.value];
        }
        i := i + 1;
      }
      assert seqNos[..i] == seqNos;
    }

    /** One number of the request, at the time of the request. */
    method Lookup(sn: u16, refTime: nat) returns (r: Option<PacketMeta>)
      requires Valid() && refTime == clock
      modifies this`seq_, this`recorded, this`log
      ensures Valid()
      ensures var f := Finds(old(State()), max, sn);
              if f.Some? && (old(seq_)[f.value].lastNack == 0 || clock - old(seq_)[f.value].lastNack > 100) then
                && r == Some(old(seq_)[f.value].(lastNack := clock))
                && State() == old(State()).(slots := old(seq_)[f.value := r.value])
                && log == old(log) + [Return(ids[f.value], clock, r.value)]
              else r == None && State() == old(State()) && log == old(log)
      ensures recorded == Refreshed(old(recorded), [sn], clock)
      ensures Answers(r, old(recorded), sn, clock)
      ensures r.Some? ==> r.value in seq_.Values
    {
      hide Recorded, Sub16, Logged, Apart, Refreshed, Answers;
      AddressOf(seq_, step, max, head, recorded, sn);
      ghost var f := Finds(State(), max, sn);
      AnswersFound(recorded, sn, clock, if f.Some? then Some(seq_[f.value]) else None);
      var s: int := step - Sub16(headSn, sn) - 1;
      r := None;
      if s >= 0 || -s < max {
        if s < 0 {
          s := s + max;
        }
        if s in seq_ {
          var e := seq_[s];
          if e.targetSeqNo == sn && Due(e.lastNack, refTime) {
            RefreshSlot(seq_, step, max, head, recorded, s, sn, refTime);
            ReturnApart(seq_, ids, next, log, s, refTime);
            e := e.(lastNack := refTime);
            log := log + [Return(ids[s], refTime, e)];
            seq_ := seq_[s := e];
            recorded := Marked(recorded, sn, clock);
            r := Some(e);
            assert s in seq_.Keys && seq_[s] == e;
          }
        }
      }
    }
  }

  // ---------------------------------------------------------------- answers to a request

  /** The recorded entries with those that are asked for and due marked as retransmitted now. */
  ghost function Refreshed(m: map<int, PacketMeta>, sns: seq<u16>, now: nat): map<int, PacketMeta> {
    map k | k in m :: if k % 0x1_0000 in sns && Due(m[k].lastNack, now) then m[k].(lastNack := now) else m[k]
  }

  /** The recorded entry of one number marked as retransmitted now. */
  ghost function Marked(m: map<int, PacketMeta>, sn: u16, now: nat): map<int, PacketMeta> {
    map k | k in m :: if k % 0x1_0000 == sn then m[k].(lastNack := now) else m[k]
  }

  /** What is found for a number, if it is recorded the entry of that number, answers for it. */
  lemma {:induction false} AnswersFound(m: map<int, PacketMeta>, sn: u16, now: nat, f: Option<PacketMeta>)
    requires forall k <- m :: k % 0x1_0000 == sn ==> f == Some(m[k])
    requires f.Some? ==> f.value.targetSeqNo == sn
    ensures var due := f.Some? && Due(f.value.lastNack, now);
            && Answers(if due then Some(f.value.(lastNack := now)) else None, m, sn, now)
            && Refreshed(m, [sn], now) == if due then Marked(m, sn, now) else m
  {
  }

  /** The answer for one number: its recorded entry when that is due; whatever is answered was stored
      under the number asked for. */
  ghost predicate Answers(r: Option<PacketMeta>, m: map<int, PacketMeta>, sn: u16, now: nat) {
    && (r.Some? ==> r.value.targetSeqNo == sn && r.value.lastNack == now)
    && forall k <- m :: k % 0x1_0000 == sn ==> r == if m[k].lastNack == 0 || now - m[k].lastNack > 100 then Some(m[k].(lastNack := now)) else None
  }

  /** Every recorded entry asked for and due is in the answer. */
  ghost predicate Complete(metas: seq<PacketMeta>, m: map<int, PacketMeta>, sns: seq<u16>, now: nat) {
    forall k <- m :: k % 0x1_0000 in sns && (m[k].lastNack == 0 || now - m[k].lastNack > 100) ==> m[k].(lastNack := now) in metas
  }

  /** Every answer was asked for, and is the recorded entry of its number, due, if there is one. */
  ghost predicate Sound(metas: seq<PacketMeta>, m: map<int, PacketMeta>, sns: seq<u16>, now: nat) {
    forall i :: 0 <= i < |metas| ==> SoundOne(metas[i], m, sns, now)
  }

  ghost predicate SoundOne(a: PacketMeta, m: map<int, PacketMeta>, sns: seq<u16>, now: nat) {
    && a.targetSeqNo in sns && a.lastNack == now
    && forall k <- m :: k % 0x1_0000 == a.targetSeqNo ==> a == m[k].(lastNack := now) && (m[k].lastNack == 0 || now - m[k].lastNack > 100)
  }

  lemma {:induction false} NoneRefreshed(m: map<int, PacketMeta>, now: nat)
    ensures Refreshed(m, [], now) == m && Complete([], m, [], now) && Sound([], m, [], now)
  {}

  lemma {:induction false} AnswerStep(m: map<int, PacketMeta>, sns: seq<u16>, i: nat, now: nat, metas: seq<PacketMeta>, r: Option<PacketMeta>)
    requires i < |sns|
    requires Complete(metas, m, sns[..i], now) && Sound(metas, m, sns[..i], now)
    requires Answers(r, Refreshed(m, sns[..i], now), sns[i], now)
    ensures Refreshed(Refreshed(m, sns[..i], now), [sns[i]], now) == Refreshed(m, sns[..i + 1], now)
    ensures var all := if r.Some? then metas + [r.value] else metas;
            Complete(all, m, sns[..i + 1], now) && Sound(all, m, sns[..i + 1], now)
  {
    var before := Refreshed(m, sns[..i], now);
    assert sns[..i + 1] == sns[..i] + [sns[i]];
    var all := if r.Some? then metas + [r.value] else metas;
    forall k | k in m && k % 0x1_0000 in sns[..i + 1] && Due(m[k].lastNack, now) ensures m[k].(lastNack := now) in all {
      if k % 0x1_0000 !in sns[..i] {
        assert before[k] == m[k] && k % 0x1_0000 == sns[i];
        assert r == Some(m[k].(lastNack := now));
        assert all[|metas|] == m[k].(lastNack := now);
      }
    }
    forall t | 0 <= t < |all| ensures SoundOne(all[t], m, sns[..i + 1], now) {
      if t < |metas| {
        assert SoundOne(metas[t], m, sns[..i], now);
      } else {
        forall k | k in m && k % 0x1_0000 == sns[i] ensures all[t] == m[k].(lastNack := now) && Due(m[k].lastNack, now) {
          assert k in before;
        }
      }
    }
  }

  lemma {:induction false} NothingRecorded(seq_: map<int, PacketMeta>, step: nat, max: nat, head: int)
    ensures Recorded(seq_, step, max, head, map[])
  {}

  /** The address computed for a number leads to the recorded entry of that number, if there is one. */
  lemma {:induction false} AddressOf(seq_: map<int, PacketMeta>, step: nat, max: nat, head: int, m: map<int, PacketMeta>, sn: u16)
    requires Recorded(seq_, step, max, head, m) && max <= 0x1_0000
    ensures var s := step - Sub16(head % 0x1_0000, sn) - 1;
            forall k :: k in m && k % 0x1_0000 == sn ==>
              && (s < 0 ==> -s < max) && m[k].targetSeqNo == sn
              && SlotOf(step, max, head, k) == (if s < 0 then s + max else s)
              && (if s < 0 then s + max else s) in seq_ && seq_[if s < 0 then s + max else s] == m[k]
  {
  }

  /** Refreshing the entry found for a number refreshes the recorded entry of that number and no other. */
  lemma {:induction false} RefreshSlot(seq_: map<int, PacketMeta>, step: nat, max: nat, head: int, m: map<int, PacketMeta>,
                                       s: int, sn: u16, now: nat)
    requires Recorded(seq_, step, max, head, m) && max <= 0x1_0000
    requires s in seq_ && seq_[s].targetSeqNo == sn
    requires forall k :: k in m && k % 0x1_0000 == sn ==> SlotOf(step, max, head, k) == s
    ensures Recorded(seq_[s := seq_[s].(lastNack := now)], step, max, head, Marked(m, sn, now))
  {}

  lemma {:induction false} NewHead(head: int, offSn: u16)
    ensures (head + Sub16(offSn, head % 0x1_0000)) % 0x1_0000 == offSn
    ensures Sub16(offSn, head) == Sub16(offSn, head % 0x1_0000)
  {}

  lemma {:induction false} KeptRecorded(seq_: map<int, PacketMeta>, step: nat, max: nat, head: int, m: map<int, PacketMeta>, d: nat,
                                        kept: map<int, PacketMeta>, meta: PacketMeta)
    requires Recorded(seq_, step, max, head, m) && (step < max || (step == 0 && max == 0))
    requires kept == if d == 0 then map[] else map k | k in m && k + max >= head + d + 2 :: m[k]
    requires meta.targetSeqNo == (head + d) % 0x1_0000
    ensures var at := Turns(step, max, if d == 0 then 0 else d - 1);
            max >= 2 ==> Recorded(seq_[at := meta], Turn(at, max), max, head + d, kept[head + d := meta])
  {
    var at := Turns(step, max, if d == 0 then 0 else d - 1);
    TurnsBound(step, max, if d == 0 then 0 else d - 1);
    forall k | k in kept
      ensures SlotOf(Turn(at, max), max, head + d, k) == SlotOf(step, max, head, k) != at
    {
      SlotKept(step, max, head, d, k);
    }
  }

  /** One reordering is enough: after 10, 12 and the late 11, none of the three is found. */
  lemma {:induction false} LateLosesAll(ten: PacketMeta, eleven: PacketMeta, twelve: PacketMeta)
    requires ten.targetSeqNo == 10 && eleven.targetSeqNo == 11 && twelve.targetSeqNo == 12
    ensures var r := Pushed(Pushed(Pushed(Ring(map[], 0, 10), 10, true, ten), 10, true, twelve), 10, false, eleven);
            Finds(r, 10, 10) == None && Finds(r, 10, 11) == None && Finds(r, 10, 12) == None
  {
    var one := Pushed(Ring(map[], 0, 10), 10, true, ten);
    assert one == Ring(map[0 := ten], 1, 10);
    assert Turns(1, 10, 1) == 2;
    var two := Pushed(one, 10, true, twelve);
    assert two == Ring(map[0 := ten, 2 := twelve], 3, 12);
    assert Pushed(two, 10, false, eleven) == Ring(map[0 := ten, 2 := twelve, 3 := eleven], 4, 12);
  }
}
