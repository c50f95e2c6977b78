/** The queue of missing packets: a sorted vector of extended sequence numbers, each with the number of
    times it has been requested. */
module NackQueues {
  import opened Numbers
  import opened Wrappers
  import opened NackPairs

  const MAX_NACK_TIMES: nat := 3

  datatype Nack = Nack(seqNumber: u32, nackd: nat)

  type Queue = seq<Nack>

  ghost predicate Sorted(q: Queue) {
    forall i, j :: 0 <= i < j < |q| ==> q[i].seqNumber < q[j].seqNumber
  }

  ghost predicate Bounded(q: Queue) {
    forall i :: 0 <= i < |q| ==> q[i].nackd <= MAX_NACK_TIMES
  }

  /** The abstract view: how often a queued number has been requested. */
  function CountOf(q: Queue, sn: nat): Option<nat> {
    if q == [] then None
    else if q[|q| - 1].seqNumber == sn then Some(q[|q| - 1].nackd)
    else CountOf(q[..|q| - 1], sn)
  }

  // ---------------------------------------------------------------- what the operations do

  /** Position of a number, or where it belongs. */
  function Search(q: Queue, sn: u32): (r: Result<nat, nat>)
    requires Sorted(q)
    ensures match r
      case Ok(i) => i < |q| && q[i].seqNumber == sn
      case Err(i) => i <= |q| && (forall j :: 0 <= j < i ==> q[j].seqNumber < sn) && (forall j :: i <= j < |q| ==> q[j].seqNumber > sn)
  {
    if q == [] then Err(0)
    else if q[|q| - 1].seqNumber == sn then Ok(|q| - 1)
    else if q[|q| - 1].seqNumber < sn then Err(|q|)
    else Search(q[..|q| - 1], sn)
  }

  /** Entries below the limit are asked for once more; those asked three times already are dropped. */
  function Keep(q: Queue, limit: nat): Queue {
    if q == [] then [] else Keep(q[..|q| - 1], limit) + KeepOne(q[|q| - 1], limit)
  }

  function KeepOne(e: Nack, limit: nat): Queue {
    if e.nackd >= MAX_NACK_TIMES then [] else if e.seqNumber >= limit then [e] else [Nack(e.seqNumber, e.nackd + 1)]
  }

  predicate IsEligible(e: Nack, limit: nat) { e.nackd < MAX_NACK_TIMES && e.seqNumber < limit }

  /** The numbers asked for, in queue order. */
  function Eligible(q: Queue, limit: nat): seq<nat> {
    if q == [] then []
    else Eligible(q[..|q| - 1], limit) + if IsEligible(q[|q| - 1], limit) then [q[|q| - 1].seqNumber] else []
  }

  /** The largest number given up on, if that is beyond the last one a key frame was asked for. */
  function KeyFrame(q: Queue, key: u32): u32 {
    if q == [] then key
    else
      var k := KeyFrame(q[..|q| - 1], key);
      if q[|q| - 1].nackd >= MAX_NACK_TIMES && q[|q| - 1].seqNumber > k then q[|q| - 1].seqNumber else k
  }

  function Limit(head: u32): u32 { Sub32(head, 2) }

  class NackQueue {
    var nacks: Queue
    var keyFrameSeqNumber: u32
    /** Everything done to the queue since it was created. */
    ghost var ops: seq<Op>

    ghost predicate Valid()
      reads this
    {
      Sorted(nacks) && Bounded(nacks) && Matches(nacks, ops)
    }

    constructor ()
      ensures Valid() && nacks == [] && keyFrameSeqNumber == 0 && ops == []
    {
      nacks, keyFrameSeqNumber, ops := [], 0, [];
    }

    method Push(sn: u32)
      requires Valid()
      modifies this`nacks, this`ops
      ensures Valid() && ops == old(ops) + [PushOp(sn)]
      ensures forall x :: CountOf(nacks, x) == if x == sn && CountOf(old(nacks), x).None? then Some(0) else CountOf(old(nacks), x)
    {
      hide Matches;
      ghost var q := nacks;
      match Search(nacks, sn) {
        case Ok(i) =>
          CountAt(nacks, i);
        case Err(i) =>
          WithEntry(nacks, i, sn);
          nacks := nacks[..i] + [Nack(sn, 0)] + nacks[i..];
      }
      MatchesStep(q, ops, PushOp(sn), nacks);
      ops := ops + [PushOp(sn)];
    }

    method Remove(sn: u32) returns (r: Option<Nack>)
      requires Valid()
      modifies this`nacks, this`ops
      ensures Valid() && ops == old(ops) + [RemoveOp(sn)]
      ensures forall x :: CountOf(nacks, x) == if x == sn then None else CountOf(old(nacks), x)
      ensures r == if CountOf(old(nacks), sn).Some? then Some(Nack(sn, CountOf(old(nacks), sn).value)) else None
    {
      hide Matches;
      ghost var q := nacks;
      match Search(nacks, sn) {
        case Ok(i) =>
          r := Some(nacks[i]);
          WithoutEntry(nacks, i);
          nacks := nacks[..i] + nacks[i + 1..];
        case Err(i) =>
          CountAbsent(nacks, sn);
          r := None;
      }
      MatchesStep(q, ops, RemoveOp(sn), nacks);
      ops := ops + [RemoveOp(sn)];
    }

    /** rsfu/src/buffer/nack.rs:108-121: the number either opens a new pair or sets a bit of the open one. */
    static method AddToPairs(np: Pair, nps: seq<Pair>, lo: u16) returns (np': Pair, nps': seq<Pair>)
      ensures Grouping(np', nps') == Extend(Grouping(np, nps), lo)
    {
      np', nps' := np, nps;
      var pid: int := np.packetId;
      if pid == 0 || lo > (pid + 16) % 0x1_0000 {
        if pid != 0 {
          nps' := nps + [np];
        }
        np' := Pair(lo, 0);
        return;
      }
      np' := Pair(pid, BitOr(np.lostPackets, Shl(1, (lo - pid - 1) % 0x1_0000 % 16)));
    }

    /** rsfu/src/buffer/nack.rs:88-122, the body of the loop over the queue: `front` is the part already rewritten. */
    method Visit(idx: nat, headSeqNumber: u32, ask: bool, np: Pair, nps: seq<Pair>, ghost front: Queue, ghost q: Queue, ghost j: nat)
      returns (idx': nat, ask': bool, np': Pair, nps': seq<Pair>)
      requires j < |q| && idx == |front| && nacks == front + q[j..]
      modifies this`nacks, this`keyFrameSeqNumber
      ensures var e, limit := q[j], Limit(headSeqNumber);
        && nacks == front + (if e.nackd >= MAX_NACK_TIMES then [] else if e.seqNumber >= limit then [e] else [Nack(e.seqNumber, e.nackd + 1)]) + q[j + 1..]
        && idx' == idx + (if e.nackd >= MAX_NACK_TIMES then 0 else 1)
        && keyFrameSeqNumber == (if e.nackd >= MAX_NACK_TIMES && e.seqNumber > old(keyFrameSeqNumber) then e.seqNumber else old(keyFrameSeqNumber))
        && ask' == (ask || keyFrameSeqNumber > old(keyFrameSeqNumber))
        && Grouping(np', nps') == if IsEligible(e, limit) then Extend(Grouping(np, nps), LowHalf(e.seqNumber)) else Grouping(np, nps)
    {
      hide Extend;
      idx', ask', np', nps' := idx, ask, np, nps;
      var v := nacks[idx];
      Split(front, q, j, Nack(v.seqNumber, v.nackd + 1));
      if v.nackd >= MAX_NACK_TIMES {
        if v.seqNumber > keyFrameSeqNumber {
          keyFrameSeqNumber := v.seqNumber;
          ask' := true;
        }
        nacks := nacks[..idx] + nacks[idx + 1..];
        return;
      }
      idx' := idx + 1;
      if v.seqNumber >= Sub32(headSeqNumber, 2) {
        return;
      }
      nacks := nacks[idx := Nack(v.seqNumber, v.nackd + 1)];
      np', nps' := AddToPairs(np, nps, v.seqNumber % 0x1_0000);
    }

    /** One round of requests. */
    method MakePairs(headSeqNumber: u32) returns (r: Option<seq<Pair>>, askKeyFrame: bool)
      requires Valid()
      modifies this
      ensures Valid() && ops == old(ops) + [RoundOp(Limit(headSeqNumber))]
      ensures nacks == Keep(old(nacks), Limit(headSeqNumber))
      ensures keyFrameSeqNumber == KeyFrame(old(nacks), old(keyFrameSeqNumber))
      ensures askKeyFrame == (keyFrameSeqNumber > old(keyFrameSeqNumber))
      ensures r == if old(nacks) == [] then None else Some(Pairs(Eligible(old(nacks), Limit(headSeqNumber))))
    {
      hide Matches, Effect, CountAfter, RoundAt, Extend, Sorted, Bounded, Sub32, Keep, KeyFrame, Eligible, Group, CountOf, Decode;
      MatchesRound(nacks, ops, Limit(headSeqNumber));
      ops := ops + [RoundOp(Limit(headSeqNumber))];
      if |nacks| == 0 {
        EmptyRound(Limit(headSeqNumber), keyFrameSeqNumber);
        return None, false;
      }
      var np := Pair(0, 0);
      var nps: seq<Pair> := [];
      askKeyFrame := false;
      var idx: nat := 0;
      ghost var q, key, limit := nacks, keyFrameSeqNumber, Limit(headSeqNumber);
      ghost var j: nat := 0;
      RoundStarts(q, limit, key);
      while idx < |nacks|
        invariant RoundAt(q, j, limit, key, idx, nacks, keyFrameSeqNumber, askKeyFrame, Grouping(np, nps))
        invariant Matches(Keep(q, limit), ops) && ops == old(ops) + [RoundOp(limit)]
        decreases |q| - j
      {
        idx, askKeyFrame, np, nps := VisitNext(idx, headSeqNumber, askKeyFrame, np, nps, q, j, key);
        j := j + 1;
      }
      RoundEnds(q, j, limit, key, idx, nacks, keyFrameSeqNumber, askKeyFrame, Grouping(np, nps));
      KeepSorted(q, limit);
      if np.packetId != 0 {
        nps := nps + [np];
      }
      r := Some(nps);
    }

    /** The loop body once more, in terms of the whole round. */
    method VisitNext(idx: nat, headSeqNumber: u32, ask: bool, np: Pair, nps: seq<Pair>, ghost q: Queue, ghost j: nat, ghost key: u32)
      returns (idx': nat, ask': bool, np': Pair, nps': seq<Pair>)
      requires RoundAt(q, j, Limit(headSeqNumber), key, idx, nacks, keyFrameSeqNumber, ask, Grouping(np, nps)) && idx < |nacks|
      modifies this`nacks, this`keyFrameSeqNumber
      ensures j < |q|
      ensures RoundAt(q, j + 1, Limit(headSeqNumber), key, idx', nacks, keyFrameSeqNumber, ask', Grouping(np', nps'))
    {
      hide Extend, Keep, KeyFrame, Eligible, Group, Limit, LowHalf;
      RoundStep(q, j, Limit(headSeqNumber), key);
      idx', ask', np', nps' := Visit(idx, headSeqNumber, ask, np, nps, Keep(q[..j], Limit(headSeqNumber)), q, j);
    }
  }

  /** The state of a round after j entries of the queue q. */
  ghost predicate RoundAt(q: Queue, j: nat, limit: nat, key: u32, idx: nat, nacks: Queue, keyNow: u32, ask: bool, g: Grouping) {
    && j <= |q| && idx == |Keep(q[..j], limit)|
    && nacks == Keep(q[..j], limit) + q[j..]
    && keyNow == KeyFrame(q[..j], key) >= key
    && ask == (keyNow > key)
    && g == Group(Eligible(q[..j], limit))
  }

  lemma {:induction false} RoundStarts(q: Queue, limit: nat, key: u32)
    ensures RoundAt(q, 0, limit, key, 0, q, key, false, Grouping(Pair(0, 0), []))
  {
    EmptyRound(limit, key);
  }

  lemma {:induction false} RoundEnds(q: Queue, j: nat, limit: nat, key: u32, idx: nat, nacks: Queue, keyNow: u32, ask: bool, g: Grouping)
    requires RoundAt(q, j, limit, key, idx, nacks, keyNow, ask, g) && idx >= |nacks|
    ensures nacks == Keep(q, limit) && keyNow == KeyFrame(q, key) && ask == (keyNow > key) && g == Group(Eligible(q, limit))
  {
    hide Keep, KeyFrame, Eligible, Group;
    WholeQueue(Keep(q[..j], limit), q, j, nacks);
  }

  /** The vector between its rewritten front and the entries still to be visited. */
  lemma {:induction false} Split(front: Queue, q: Queue, j: nat, e: Nack)
    requires j < |q|
    ensures var s := front + q[j..];
            && s[|front|] == q[j]
            && s[..|front|] + s[|front| + 1..] == front + q[j + 1..]
            && s == (front + [q[j]]) + q[j + 1..]
            && s[|front| := e] == (front + [e]) + q[j + 1..]
            && front + [] == front
  {}

  lemma {:induction false} WholeQueue(front: Queue, q: Queue, j: nat, all: Queue)
    requires j <= |q| && all == front + q[j..] && |all| <= |front|
    ensures q[..j] == q && all == front
  {}

  lemma {:induction false} EmptyRound(limit: nat, key: u32)
    ensures Keep([], limit) == [] && KeyFrame([], key) == key && Eligible([], limit) == []
    ensures Group([]) == Grouping(Pair(0, 0), [])
  {}

  lemma {:induction false} RoundStep(q: Queue, j: nat, limit: nat, key: u32)
    requires j < |q|
    ensures var a, b, e := q[..j], q[..j + 1], q[j];
            && Keep(b, limit) == Keep(a, limit) + (if e.nackd >= MAX_NACK_TIMES then [] else if e.seqNumber >= limit then [e] else [Nack(e.seqNumber, e.nackd + 1)])
            && KeyFrame(b, key) == (if e.nackd >= MAX_NACK_TIMES && e.seqNumber > KeyFrame(a, key) then e.seqNumber else KeyFrame(a, key))
            && Group(Eligible(b, limit)) == if IsEligible(e, limit) then Extend(Group(Eligible(a, limit)), LowHalf(e.seqNumber)) else Group(Eligible(a, limit))
  {
    hide Extend, Group;
    var a, b, e := q[..j], q[..j + 1], q[j];
    assert b[..j] == a && b[j] == e;
    EligibleStep(a, b, e, limit);
  }

  lemma {:induction false} EligibleStep(a: Queue, b: Queue, e: Nack, limit: nat)
    requires b != [] && b[..|b| - 1] == a && b[|b| - 1] == e
    ensures Group(Eligible(b, limit)) == if IsEligible(e, limit) then Extend(Group(Eligible(a, limit)), LowHalf(e.seqNumber)) else Group(Eligible(a, limit))
  {
    hide Extend, Group;
    if IsEligible(e, limit) {
      GroupStep(Eligible(a, limit), e.seqNumber);
    } else {
      assert Eligible(b, limit) == Eligible(a, limit);
    }
  }

  // ---------------------------------------------------------------- the map view

  lemma {:induction false} CountAt(q: Queue, i: nat)
    requires Sorted(q) && i < |q|
    ensures CountOf(q, q[i].seqNumber) == Some(q[i].nackd)
  {
    if i < |q| - 1 { CountAt(q[..|q| - 1], i); }
  }

  lemma {:induction false} CountAbsent(q: Queue, x: nat)
    requires forall i :: 0 <= i < |q| ==> q[i].seqNumber != x
    ensures CountOf(q, x).None?
  {
    if q != [] { CountAbsent(q[..|q| - 1], x); }
  }

  /** Taking out entry i forgets its number and no other. */
  lemma {:induction false} WithoutEntry(q: Queue, i: nat)
    requires Sorted(q) && Bounded(q) && i < |q|
    ensures var rest := q[..i] + q[i + 1..];
            Sorted(rest) && Bounded(rest) && forall x :: CountOf(rest, x) == if x == q[i].seqNumber then None else CountOf(q, x)
    ensures CountOf(q, q[i].seqNumber) == Some(q[i].nackd)
  {
    hide CountOf;
    CountAt(q, i);
    var rest := q[..i] + q[i + 1..];
    CountAbsent(rest, q[i].seqNumber);
    forall x ensures x != q[i].seqNumber ==> CountOf(rest, x) == CountOf(q, x) {
      CountInsert(rest, i, q[i], x);
      assert rest[..i] + [q[i]] + rest[i..] == q;
      assert rest[..i] + rest[i..] == rest;
    }
  }

  /** Inserting an absent number where it belongs adds it without requests and touches no other. */
  lemma {:induction false} WithEntry(q: Queue, i: nat, sn: u32)
    requires Sorted(q) && Bounded(q) && i <= |q|
    requires (forall j :: 0 <= j < i ==> q[j].seqNumber < sn) && (forall j :: i <= j < |q| ==> q[j].seqNumber > sn)
    ensures var more := q[..i] + [Nack(sn, 0)] + q[i..];
            Sorted(more) && Bounded(more) && forall x :: CountOf(more, x) == if x == sn then Some(0) else CountOf(q, x)
    ensures CountOf(q, sn).None?
  {
    hide CountOf;
    CountAbsent(q, sn);
    assert q[..i] + q[i..] == q;
    forall x ensures CountOf(q[..i] + [Nack(sn, 0)] + q[i..], x) == if x == sn then Some(0) else CountOf(q, x) {
      CountInsert(q, i, Nack(sn, 0), x);
    }
  }

  lemma {:induction false} CountPresent(q: Queue, x: nat) returns (i: nat)
    requires CountOf(q, x).Some?
    ensures i < |q| && q[i].seqNumber == x && q[i].nackd == CountOf(q, x).value
  {
    if q[|q| - 1].seqNumber == x { i := |q| - 1; } else { i := CountPresent(q[..|q| - 1], x); }
  }

  lemma {:induction false} CountInsert(q: Queue, i: nat, e: Nack, x: nat)
    requires i <= |q| && forall j :: 0 <= j < |q| ==> q[j].seqNumber != e.seqNumber
    ensures CountOf(q[..i] + [e] + q[i..], x) == if x == e.seqNumber then Some(e.nackd) else CountOf(q[..i] + q[i..], x)
  {
    var all := q[..i] + [e] + q[i..];
    assert q[..i] + q[i..] == q;
    if i == |q| {
      assert all[..|all| - 1] == q;
    } else {
      var init := q[..|q| - 1];
      CountInsert(init, i, e, x);
      assert init[..i] + init[i..] == init;
      assert all[..|all| - 1] == init[..i] + [e] + init[i..];
    }
  }

  lemma {:induction false} KeepSorted(q: Queue, limit: nat)
    requires Sorted(q) && Bounded(q)
    ensures Sorted(Keep(q, limit)) && Bounded(Keep(q, limit))
  {
    if q != [] {
      var init := q[..|q| - 1];
      KeepSorted(init, limit);
      KeepBelow(init, limit, q[|q| - 1].seqNumber);
    }
  }

  lemma {:induction false} KeepBelow(q: Queue, limit: nat, bound: nat)
    requires forall i :: 0 <= i < |q| ==> q[i].seqNumber < bound
    ensures forall i :: 0 <= i < |Keep(q, limit)| ==> Keep(q, limit)[i].seqNumber < bound
  {
    if q != [] { KeepBelow(q[..|q| - 1], limit, bound); }
  }

  /** A round counts one request for every eligible entry, drops the exhausted ones, and touches no other. */
  lemma {:induction false} CountKeep(q: Queue, limit: nat, x: nat)
    requires Sorted(q)
    ensures CountOf(Keep(q, limit), x)
            == match CountOf(q, x)
               case None => None
               case Some(c) => if c >= MAX_NACK_TIMES then None else if x < limit then Some(c + 1) else Some(c)
  {
    if q != [] {
      var init, e := q[..|q| - 1], q[|q| - 1];
      hide CountOf, KeepOne;
      CountKeep(init, limit, x);
      assert q == init + [e];
      CountAppend(init, e, x);
      CountKeepOne(Keep(init, limit), e, limit, x);
      if e.seqNumber == x {
        CountAbsent(init, x);
      }
    } else {
      NothingCounted(x);
    }
  }

  lemma {:induction false} CountKeepOne(rest: Queue, e: Nack, limit: nat, x: nat)
    ensures CountOf(rest + KeepOne(e, limit), x)
            == if e.seqNumber != x || e.nackd >= MAX_NACK_TIMES then CountOf(rest, x)
               else if x < limit then Some(e.nackd + 1) else Some(e.nackd)
  {
    hide CountOf;
    if e.nackd < MAX_NACK_TIMES {
      CountAppend(rest, if e.seqNumber >= limit then e else Nack(e.seqNumber, e.nackd + 1), x);
    } else {
      assert rest + KeepOne(e, limit) == rest;
    }
  }

  lemma {:induction false} NothingCounted(x: nat)
    ensures CountOf([], x) == None
  {}

  lemma {:induction false} CountAppend(q: Queue, e: Nack, x: nat)
    ensures CountOf(q + [e], x) == if e.seqNumber == x then Some(e.nackd) else CountOf(q, x)
  {
    assert (q + [e])[..|q|] == q;
  }

  /** The numbers asked for are exactly the queued ones below the limit with fewer than three requests,
      in ascending order. */
  lemma {:induction false} EligibleExact(q: Queue, limit: nat)
    requires Sorted(q)
    ensures Ascending(Eligible(q, limit))
    ensures forall x: nat :: x in Eligible(q, limit) <==> CountOf(q, x).Some? && CountOf(q, x).value < MAX_NACK_TIMES && x < limit
  {
    if q != [] {
      var init, e := q[..|q| - 1], q[|q| - 1];
      EligibleExact(init, limit);
      CountAbsent(init, e.seqNumber);
      forall i | 0 <= i < |Eligible(init, limit)| ensures Eligible(init, limit)[i] < e.seqNumber {
        var x := Eligible(init, limit)[i];
        assert x in Eligible(init, limit);
        var t := CountPresent(init, x);
        assert q[t] == init[t];
      }
    }
  }

  /** What a receiver of one round of pairs reads: all the numbers asked for and nothing else, in order
      and each once, exactly when the first of them has no zero low half and the pair open at the wrap,
      if they wrap, has a PID of at least 65520. */
  lemma {:induction false} RoundReadsIff(q: Queue, limit: nat)
    requires Sorted(q)
    requires var nums := Eligible(q, limit); nums != [] ==> nums[|nums| - 1] < nums[0] + 0x1_0000
    ensures var nums := Eligible(q, limit);
            Decode(Pairs(nums)) == Lows(nums) <==> (nums != [] ==> LowHalf(nums[0]) != 0 && WrapsWithBound(nums))
  {
    EligibleExact(q, limit);
    DecodeIff(Eligible(q, limit));
  }

  // ---------------------------------------------------------------- key frames

  /** A key frame is asked for exactly when a number given up on lies beyond the last one it was asked
      for, and that mark moves to the largest such number. */
  lemma {:induction false} KeyFrameIsMax(q: Queue, key: u32)
    ensures KeyFrame(q, key) >= key
    ensures forall i :: 0 <= i < |q| && q[i].nackd >= MAX_NACK_TIMES ==> q[i].seqNumber <= KeyFrame(q, key)
    ensures KeyFrame(q, key) > key ==> exists i :: 0 <= i < |q| && q[i] == Nack(KeyFrame(q, key), q[i].nackd) && q[i].nackd >= MAX_NACK_TIMES
  {
    if q != [] {
      var init := q[..|q| - 1];
      KeyFrameIsMax(init, key);
      if KeyFrame(q, key) > key && KeyFrame(q, key) == KeyFrame(init, key) {
        var i :| 0 <= i < |init| && init[i] == Nack(KeyFrame(init, key), init[i].nackd) && init[i].nackd >= MAX_NACK_TIMES;
        assert q[i] == init[i];
      }
    }
  }

  // ---------------------------------------------------------------- progress

  function Weight(q: Queue): int {
    if q == [] then 0 else Weight(q[..|q| - 1]) + (MAX_NACK_TIMES + 1 - q[|q| - 1].nackd)
  }

  lemma {:induction false} WeightKeepOne(rest: Queue, e: Nack, limit: nat)
    requires e.nackd <= MAX_NACK_TIMES
    ensures var w := Weight(rest + KeepOne(e, limit)) - Weight(rest);
            0 <= w <= MAX_NACK_TIMES + 1 - e.nackd
            && (e.nackd >= MAX_NACK_TIMES || e.seqNumber < limit ==> w < MAX_NACK_TIMES + 1 - e.nackd)
  {
    var all := rest + KeepOne(e, limit);
    if e.nackd < MAX_NACK_TIMES { assert all[..|rest|] == rest; } else { assert all == rest; }
  }

  /** Every round with something to ask or to give up on brings the queue strictly closer to empty. */
  lemma {:induction false} RoundProgress(q: Queue, limit: nat)
    requires Bounded(q)
    ensures 0 <= Weight(Keep(q, limit)) <= Weight(q)
    ensures (exists i :: 0 <= i < |q| && (q[i].nackd >= MAX_NACK_TIMES || q[i].seqNumber < limit)) ==> Weight(Keep(q, limit)) < Weight(q)
  {
    if q != [] {
      var init, e := q[..|q| - 1], q[|q| - 1];
      assert Keep(q, limit) == Keep(init, limit) + KeepOne(e, limit);
      assert Weight(q) == Weight(init) + (MAX_NACK_TIMES + 1 - e.nackd);
      hide Keep, KeepOne, Weight;
      RoundProgress(init, limit);
      WeightKeepOne(Keep(init, limit), e, limit);
      if i :| 0 <= i < |q| && (q[i].nackd >= MAX_NACK_TIMES || q[i].seqNumber < limit) {
        if i < |init| { assert init[i] == q[i]; }
      }
    } else {
      NothingToAsk(limit);
    }
  }

  lemma {:induction false} NothingToAsk(limit: nat)
    ensures Weight(Keep([], limit)) == 0 == Weight([])
  {}

  ghost predicate AskedAtLeast(q: Queue, n: nat) {
    forall i :: 0 <= i < |q| ==> q[i].nackd >= n
  }

  ghost predicate AllBelow(q: Queue, limit: nat) {
    forall i :: 0 <= i < |q| ==> q[i].seqNumber < limit
  }

  lemma {:induction false} RoundAsksAll(q: Queue, limit: nat, n: nat, other: nat)
    requires AskedAtLeast(q, n) && AllBelow(q, limit)
    ensures AskedAtLeast(Keep(q, limit), n + 1)
    ensures AllBelow(q, other) ==> AllBelow(Keep(q, limit), other)
    ensures n >= MAX_NACK_TIMES ==> Keep(q, limit) == []
  {
    if q != [] { RoundAsksAll(q[..|q| - 1], limit, n, other); }
  }

  /** Without new losses, four rounds with the head far enough ahead empty the queue. */
  lemma {:induction false} EmptyAfterFourRounds(q: Queue, a: nat, b: nat, c: nat, d: nat)
    requires AllBelow(q, a) && AllBelow(q, b) && AllBelow(q, c) && AllBelow(q, d)
    ensures Keep(Keep(Keep(Keep(q, a), b), c), d) == []
  {
    var q1 := Keep(q, a);
    RoundAsksAll(q, a, 0, b);
    RoundAsksAll(q, a, 0, c);
    RoundAsksAll(q, a, 0, d);
    var q2 := Keep(q1, b);
    RoundAsksAll(q1, b, 1, c);
    RoundAsksAll(q1, b, 1, d);
    RoundAsksAll(q2, c, 2, d);
    RoundAsksAll(Keep(q2, c), d, 3, d);
  }

  // ---------------------------------------------------------------- whole runs

  datatype Op = PushOp(sn: u32) | RemoveOp(sn: u32) | RoundOp(limit: u32)

  /** The effect of one operation on the request count of a number, as the methods promise it. */
  function Effect(before: Option<nat>, op: Op, x: nat): Option<nat> {
    match op
    case PushOp(sn) => if x == sn && before.None? then Some(0) else before
    case RemoveOp(sn) => if x == sn then None else before
    case RoundOp(limit) =>
      match before
      case None => None
      case Some(c) => if c >= MAX_NACK_TIMES then None else if x < limit then Some(c + 1) else before
  }

  function CountAfter(ops: seq<Op>, x: nat): Option<nat> {
    if ops == [] then None else Effect(CountAfter(ops[..|ops| - 1], x), ops[|ops| - 1], x)
  }

  /** The request counts of a queue are those of the operations it has seen. */
  ghost predicate Matches(q: Queue, ops: seq<Op>) {
    forall x: nat :: CountOf(q, x) == CountAfter(ops, x)
  }

  lemma {:induction false} MatchesStep(q: Queue, ops: seq<Op>, op: Op, q': Queue)
    requires Matches(q, ops) && forall x: nat :: CountOf(q', x) == Effect(CountOf(q, x), op, x)
    ensures Matches(q', ops + [op])
  {
    assert (ops + [op])[..|ops|] == ops;
  }

  lemma {:induction false} MatchesRound(q: Queue, ops: seq<Op>, limit: u32)
    requires Sorted(q) && Matches(q, ops)
    ensures Matches(Keep(q, limit), ops + [RoundOp(limit)])
  {
    forall x: nat ensures CountOf(Keep(q, limit), x) == Effect(CountOf(q, x), RoundOp(limit), x) {
      CountKeep(q, limit, x);
    }
    MatchesStep(q, ops, RoundOp(limit), Keep(q, limit));
  }

  /** How many rounds have requested a number since it last entered the queue. */
  function Requests(ops: seq<Op>, x: nat): nat {
    if ops == [] then 0
    else
      var init, op := ops[..|ops| - 1], ops[|ops| - 1];
      var c := CountAfter(init, x);
      if op.PushOp? && op.sn == x && c.None? then 0
      else if op.RoundOp? && c.Some? && c.value < MAX_NACK_TIMES && x < op.limit then Requests(init, x) + 1
      else Requests(init, x)
  }

  /** Over any run, no number is requested more than three times between insertion and removal, and the
      queue's count is the number of requests made. */
  lemma {:induction false} AtMostThreeRequests(ops: seq<Op>, x: nat)
    ensures Requests(ops, x) <= MAX_NACK_TIMES
    ensures CountAfter(ops, x).Some? ==> CountAfter(ops, x).value == Requests(ops, x)
  {
    if ops != [] { AtMostThreeRequests(ops[..|ops| - 1], x); }
  }
}
