/** Generic NACK entries (section 6.2.1 of RFC 4585): how lost sequence numbers are grouped into
    (PID, BLP) pairs, what a receiver of the pairs reads, and why the grouping is the shortest. */
module NackPairs {
  import opened Numbers

  datatype Pair = Pair(packetId: u16, lostPackets: nat)

  // ---------------------------------------------------------------- bit masks

  predicate Bit(b: nat, k: nat) {
    if k == 0 then b % 2 == 1 else Bit(b / 2, k - 1)
  }

  lemma {:induction false} BitOfOr(a: nat, b: nat, k: nat)
    ensures Bit(BitOr(a, b), k) <==> Bit(a, k) || Bit(b, k)
  {
    if a == 0 && b == 0 {
      BitOfZero(k);
    } else {
      OrHalves(a, b);
      if k > 0 { BitOfOr(a / 2, b / 2, k - 1); }
    }
  }

  lemma {:induction false} OrHalves(a: nat, b: nat)
    requires a != 0 || b != 0
    ensures BitOr(a, b) / 2 == BitOr(a / 2, b / 2)
    ensures BitOr(a, b) % 2 == 1 <==> a % 2 == 1 || b % 2 == 1
  {
  }

  lemma {:induction false} BitOfZero(k: nat)
    ensures !Bit(0, k)
  {
    if k > 0 { BitOfZero(k - 1); }
  }

  lemma {:induction false} BitOfShl(i: nat, k: nat)
    ensures Bit(Shl(1, i), k) <==> i == k
  {
    if i == 0 {
      if k > 0 { BitOfZero(k - 1); }
    } else if k > 0 {
      BitOfShl(i - 1, k - 1);
    }
  }

  // ---------------------------------------------------------------- reading

  /** The numbers the low k bits of the BLP add to the PID. */
  function Blp(p: Pair, k: nat): seq<u16> {
    if k == 0 then []
    else Blp(p, k - 1) + if Bit(p.lostPackets, k - 1) then [(p.packetId + k) % 0x1_0000] else []
  }

  /** RFC 4585: the PID is lost, and bit i of the BLP stands for PID + i + 1. */
  function LostNumbers(p: Pair): seq<u16> { [p.packetId] + Blp(p, 16) }

  function Decode(ps: seq<Pair>): seq<u16> {
    if ps == [] then [] else Decode(ps[..|ps| - 1]) + LostNumbers(ps[|ps| - 1])
  }

  // ---------------------------------------------------------------- grouping

  /** The pair under construction (PID 0 stands for none) and the finished ones. */
  datatype Grouping = Grouping(np: Pair, nps: seq<Pair>)

  /** Arithmetic on u16 wraps, and a shift count is taken modulo the width. */
  function Extend(g: Grouping, lo: u16): Grouping {
    var pid: int := g.np.packetId;
    if pid == 0 || lo > (pid + 16) % 0x1_0000 then
      Grouping(Pair(lo, 0), if pid != 0 then g.nps + [g.np] else g.nps)
    else
      Grouping(Pair(pid, BitOr(g.np.lostPackets, Shl(1, (lo - pid - 1) % 0x1_0000 % 16))), g.nps)
  }

  function LowHalf(n: nat): u16 { n % 0x1_0000 }

  function Lows(nums: seq<nat>): seq<u16> { seq(|nums|, i requires 0 <= i < |nums| => LowHalf(nums[i])) }

  function Group(nums: seq<nat>): Grouping {
    if nums == [] then Grouping(Pair(0, 0), [])
    else Extend(Group(nums[..|nums| - 1]), LowHalf(nums[|nums| - 1]))
  }

  lemma {:induction false} GroupStep(nums: seq<nat>, n: nat)
    ensures Group(nums + [n]) == Extend(Group(nums), LowHalf(n))
  {
  }

  function Closed(g: Grouping): seq<Pair> {
    if g.np.packetId != 0 then g.nps + [g.np] else g.nps
  }

  function Pairs(nums: seq<nat>): seq<Pair> { Closed(Group(nums)) }

  // ---------------------------------------------------------------- exactness

  ghost predicate Ascending(nums: seq<nat>) {
    forall i, j :: 0 <= i < j < |nums| ==> nums[i] < nums[j]
  }

  /** All numbers belong to one cycle of 2^16. */
  ghost predicate OneCycle(nums: seq<nat>) {
    forall i, j :: 0 <= i < |nums| && 0 <= j < |nums| ==> nums[i] / 0x1_0000 == nums[j] / 0x1_0000
  }

  /** Bits from k on are clear. */
  ghost predicate ClearFrom(b: nat, k: nat) {
    forall i :: k <= i < 16 ==> !Bit(b, i)
  }

  lemma {:induction false} BlpSame(p: Pair, q: Pair, k: nat)
    requires p.packetId == q.packetId && forall i :: 0 <= i < k ==> (Bit(p.lostPackets, i) <==> Bit(q.lostPackets, i))
    ensures Blp(p, k) == Blp(q, k)
  {
    if k > 0 { BlpSame(p, q, k - 1); }
  }

  lemma {:induction false} BlpTail(p: Pair, i: nat, k: nat)
    requires i <= k <= 16 && ClearFrom(p.lostPackets, i)
    ensures Blp(p, k) == Blp(p, i)
  {
    if i < k { BlpTail(p, i, k - 1); }
  }

  /** Setting a bit above all set ones appends one number to what is read. */
  lemma {:induction false} SetNextBit(p: Pair, i: nat)
    requires i < 16 && ClearFrom(p.lostPackets, i)
    ensures var q := Pair(p.packetId, BitOr(p.lostPackets, Shl(1, i)));
            LostNumbers(q) == LostNumbers(p) + [(p.packetId + i + 1) % 0x1_0000] && ClearFrom(q.lostPackets, i + 1)
  {
    var q := Pair(p.packetId, BitOr(p.lostPackets, Shl(1, i)));
    forall k: nat ensures Bit(q.lostPackets, k) <==> Bit(p.lostPackets, k) || i == k {
      BitOfOr(p.lostPackets, Shl(1, i), k);
      BitOfShl(i, k);
    }
    BlpTail(p, i, 16);
    BlpTail(q, i + 1, 16);
    BlpSame(p, q, i);
    assert Blp(q, i + 1) == Blp(q, i) + [(p.packetId + i + 1) % 0x1_0000];
  }

  /** The bits of the open pair reach no further than the last number grouped, which may lie beyond a wrap
      only if the pair's bound PID + 16 does. */
  ghost predicate Open(g: Grouping, last: u16) {
    && 0 < g.np.packetId && (g.np.packetId <= last || g.np.packetId >= 65520)
    && Sub16(last, g.np.packetId) <= 16 && ClearFrom(g.np.lostPackets, Sub16(last, g.np.packetId))
  }

  lemma {:induction false} DecodeStep(ps: seq<Pair>, p: Pair)
    ensures Decode(ps + [p]) == Decode(ps) + LostNumbers(p)
  {
  }

  lemma {:induction false} FreshPair(lo: u16)
    ensures LostNumbers(Pair(lo, 0)) == [lo] && ClearFrom(0, 0)
  {
    forall k: nat ensures !Bit(0, k) { BitOfZero(k); }
    BlpTail(Pair(lo, 0), 0, 16);
  }

  /** One more number, larger than the last one grouped or the first beyond a wrap, is read back behind
      the others. */
  lemma {:induction false} ExtendReads(g: Grouping, last: u16, lo: u16)
    requires Open(g, last) && (last < lo || (65520 <= g.np.packetId <= last && lo < g.np.packetId))
    ensures Open(Extend(g, lo), lo)
    ensures Decode(Closed(Extend(g, lo))) == Decode(Closed(g)) + [lo]
  {
    hide BitOr, Shl, Bit, Blp, LostNumbers, Decode, ClearFrom, Sub16;
    var pid: int := g.np.packetId;
    var h := Extend(g, lo);
    SameNumber(lo);
    if lo > (pid + 16) % 0x1_0000 {
      FreshPair(lo);
      DecodeStep(Closed(g), h.np);
    } else {
      BitIndex(pid, last, lo);
      var i := Sub16(lo, pid) - 1;
      assert ClearFrom(g.np.lostPackets, i) by { ClearAbove(g.np.lostPackets, Sub16(last, pid), i); }
      SetNextBit(g.np, i);
      DecodeStep(g.nps, g.np);
      DecodeStep(g.nps, h.np);
    }
  }

  lemma {:induction false} SameNumber(lo: u16)
    ensures Sub16(lo, lo) == 0
  {
  }

  lemma {:induction false} ClearAbove(b: nat, i: nat, j: nat)
    requires ClearFrom(b, i) && i <= j
    ensures ClearFrom(b, j)
  {
  }

  /** Where the bound holds a number, the shift is its distance from the PID, less one. */
  lemma {:induction false} BitIndex(pid: u16, last: u16, lo: u16)
    requires lo <= (pid + 16) % 0x1_0000 && Sub16(last, pid) <= 16
    requires (pid <= last || pid >= 65520) && (last < lo || (65520 <= pid <= last && lo < pid))
    ensures Sub16(last, pid) < Sub16(lo, pid) <= 16
    ensures (lo - pid - 1) % 0x1_0000 % 16 == Sub16(lo, pid) - 1 && (pid + Sub16(lo, pid)) % 0x1_0000 == lo
  {
    hide Sub16;
    SubValue(last, pid);
    SubValue(lo, pid);
    var p: int := pid;
    assert (lo - p - 1) % 0x1_0000 == Sub16(lo, pid) - 1;
  }

  lemma {:induction false} SubValue(a: u16, b: u16)
    ensures Sub16(a, b) == if a >= b then a - b else a - b + 0x1_0000
  {
  }

  lemma {:induction false} GroupOne(n: nat)
    requires LowHalf(n) != 0
    ensures Group([n]) == Grouping(Pair(LowHalf(n), 0), [])
  {
  }

  // ---------------------------------------------------------------- the wrap

  /** The numbers can be told apart by their low halves. */
  ghost predicate Distinguishable(nums: seq<nat>) {
    Ascending(nums) && (nums != [] ==> nums[|nums| - 1] - nums[0] < 0x1_0000)
  }

  /** How many numbers come before the wrap. */
  function BeforeWrap(nums: seq<nat>): (n: nat)
    ensures n <= |nums| && (nums != [] ==> n > 0)
  {
    if nums == [] then 0
    else if nums[|nums| - 1] / 0x1_0000 == nums[0] / 0x1_0000 then |nums|
    else BeforeWrap(nums[..|nums| - 1])
  }

  /** The pair open at the wrap, if there is one, has a bound PID + 16 that wraps too. */
  predicate WrapsWithBound(nums: seq<nat>) {
    BeforeWrap(nums) < |nums| ==> Group(nums[..BeforeWrap(nums)]).np.packetId >= 65520
  }

  lemma {:induction false} LowHalves(nums: seq<nat>)
    requires Distinguishable(nums) && |nums| > 1
    ensures var k := |nums| - 1;
            var first, last, lo := LowHalf(nums[0]), LowHalf(nums[k - 1]), LowHalf(nums[k]);
            && (BeforeWrap(nums) == |nums| ==> BeforeWrap(nums[..k]) == k && first <= last < lo)
            && (BeforeWrap(nums) < |nums| ==> lo < first && BeforeWrap(nums[..k]) == BeforeWrap(nums))
            && (BeforeWrap(nums) < k ==> last < lo)
            && (BeforeWrap(nums) == k ==> first <= last)
  {
    var k := |nums| - 1;
    var (a, b, c) := (nums[0], nums[k - 1], nums[k]);
    assert nums[..k][k - 1] == b && nums[..k][0] == a;
    CyclesInOrder(a, b, c);
    if k > 1 { assert nums[0] < nums[k - 1]; }
  }

  lemma {:induction false} CyclesInOrder(a: nat, b: nat, c: nat)
    requires a <= b < c < a + 0x1_0000
    ensures c / 0x1_0000 == a / 0x1_0000 ==> b / 0x1_0000 == a / 0x1_0000 && LowHalf(a) <= LowHalf(b) < LowHalf(c)
    ensures c / 0x1_0000 != a / 0x1_0000 ==> LowHalf(c) < LowHalf(a)
    ensures b / 0x1_0000 == a / 0x1_0000 ==> LowHalf(a) <= LowHalf(b)
    ensures b / 0x1_0000 != a / 0x1_0000 ==> c / 0x1_0000 != a / 0x1_0000 && LowHalf(b) < LowHalf(c)
  {
  }

  lemma {:induction false} PrefixDistinguishable(nums: seq<nat>)
    requires Distinguishable(nums) && |nums| > 1
    ensures var init := nums[..|nums| - 1];
            Distinguishable(init) && init[0] == nums[0] && Lows(nums) == Lows(init) + [LowHalf(nums[|nums| - 1])]
  {
  }

  lemma {:induction false} GroupReads(nums: seq<nat>)
    requires nums != [] && Distinguishable(nums) && LowHalf(nums[0]) != 0 && WrapsWithBound(nums)
    ensures Open(Group(nums), LowHalf(nums[|nums| - 1]))
    ensures BeforeWrap(nums) == |nums| ==> LowHalf(nums[0]) <= Group(nums).np.packetId <= LowHalf(nums[|nums| - 1])
    ensures Decode(Pairs(nums)) == Lows(nums)
  {
    hide BitOr, Shl, Bit, Blp, LostNumbers, Extend, Open, LowHalf, Lows;
    var k := |nums| - 1;
    var init := nums[..k];
    if k == 0 {
      assert nums == [nums[0]];
      OneReads(nums[0]);
    } else {
      LowHalves(nums);
      PrefixDistinguishable(nums);
      assert BeforeWrap(nums) < k ==> nums[..BeforeWrap(nums)] == init[..BeforeWrap(nums)];
      GroupReads(init);
      assert init[k - 1] == nums[k - 1];
      NextReads(Group(init), LowHalf(nums[0]), LowHalf(nums[k - 1]), LowHalf(nums[k]));
    }
  }

  lemma {:induction false} OneReads(n: nat)
    requires LowHalf(n) != 0
    ensures Open(Group([n]), LowHalf(n)) && Group([n]).np.packetId == LowHalf(n)
    ensures Decode(Pairs([n])) == Lows([n])
  {
    GroupOne(n);
    FreshPair(LowHalf(n));
    DecodeStep([], Pair(LowHalf(n), 0));
  }

  lemma {:induction false} NextReads(g: Grouping, first: u16, last: u16, lo: u16)
    requires Open(g, last) && (last < lo || (65520 <= g.np.packetId <= last && lo < first <= g.np.packetId))
    ensures Open(Extend(g, lo), lo)
    ensures Decode(Closed(Extend(g, lo))) == Decode(Closed(g)) + [lo]
    ensures last < lo && first <= g.np.packetId <= last ==> first <= Extend(g, lo).np.packetId <= lo
  {
    hide Decode, Closed;
    ExtendReads(g, last, lo);
  }

  /** Once a number beyond the wrap is within the bound of a pair that does not wrap, it and all that
      follow stay in that pair. */
  lemma {:induction false} GroupStuck(nums: seq<nat>)
    requires Distinguishable(nums) && nums != [] && LowHalf(nums[0]) != 0 && !WrapsWithBound(nums)
    ensures LowHalf(nums[|nums| - 1]) < LowHalf(nums[0]) <= Group(nums).np.packetId < 65520
  {
    hide BitOr, Shl, Bit, Blp, LostNumbers, LowHalf, Extend, Distinguishable;
    var k := |nums| - 1;
    var init := nums[..k];
    LowHalves(nums);
    PrefixDistinguishable(nums);
    assert nums[..BeforeWrap(nums)] == init[..BeforeWrap(nums)];
    if BeforeWrap(nums) == k {
      assert BeforeWrap(init) == |init|;
      GroupReads(init);
    } else {
      GroupStuck(init);
    }
    ExtendStuck(Group(init), LowHalf(nums[k]));
  }

  lemma {:induction false} ExtendStuck(g: Grouping, lo: u16)
    requires 0 < g.np.packetId < 65520 && lo < g.np.packetId
    ensures Extend(g, lo).np.packetId == g.np.packetId
  {
    hide BitOr, Shl;
  }

  lemma {:induction false} LastRead(nps: seq<Pair>, p: Pair)
    requires p.packetId < 65520
    ensures var d := Decode(nps + [p]); d != [] && d[|d| - 1] >= p.packetId
  {
    DecodeStep(nps, p);
    BlpAbove(p, 16);
  }

  lemma {:induction false} BlpAbove(p: Pair, k: nat)
    requires p.packetId < 65520 && k <= 16
    ensures forall i :: 0 <= i < |Blp(p, k)| ==> Blp(p, k)[i] > p.packetId
  {
    if k > 0 { BlpAbove(p, k - 1); }
  }

  /** A number whose low half is 0 can only come first, and is forgotten. */
  lemma {:induction false} ZeroForgotten(nums: seq<nat>)
    requires nums != [] && LowHalf(nums[0]) == 0
    ensures Group(nums).nps == Group(nums[1..]).nps
    ensures |nums| > 1 ==> Group(nums) == Group(nums[1..])
    ensures |nums| == 1 ==> Group(nums).np.packetId == 0
  {
    var k := |nums| - 1;
    if k > 0 {
      ZeroForgotten(nums[..k]);
      assert nums[..k][1..] == nums[1..][..k - 1];
      if k == 1 { assert nums[1..][..0] == []; }
    }
  }

  /** What is read is exactly the numbers reported, in order and each once, if and only if the first low
      half is not 0 and the pair open at the wrap, if there is one, has a PID of at least 65520. Without
      its leading zero low half, a batch reads as the others. */
  lemma {:induction false} DecodeIff(nums: seq<nat>)
    requires Distinguishable(nums)
    ensures Decode(Pairs(nums)) == Lows(nums) <==> (nums != [] ==> LowHalf(nums[0]) != 0 && WrapsWithBound(nums))
    ensures nums != [] && LowHalf(nums[0]) == 0 ==> Decode(Pairs(nums)) == Lows(nums[1..])
  {
    hide Blp, LostNumbers, BitOr, Shl, LowHalf;
    if nums != [] {
      if LowHalf(nums[0]) == 0 {
        WithoutFirst(nums);
      } else if WrapsWithBound(nums) {
        GroupReads(nums);
      } else {
        GroupStuck(nums);
        LastRead(Group(nums).nps, Group(nums).np);
        assert Lows(nums)[|nums| - 1] == LowHalf(nums[|nums| - 1]);
      }
    }
  }

  lemma {:induction false} WithoutFirst(nums: seq<nat>)
    requires Distinguishable(nums) && nums != [] && LowHalf(nums[0]) == 0
    ensures Decode(Pairs(nums)) == Lows(nums[1..]) != Lows(nums)
  {
    hide Blp, LostNumbers, BitOr, Shl, LowHalf;
    var rest := nums[1..];
    ZeroForgotten(nums);
    if rest != [] {
      assert rest[|rest| - 1] == nums[|nums| - 1] && rest[0] == nums[1];
      AfterZero(nums[0], rest[0], rest[|rest| - 1]);
      GroupReads(rest);
    }
    assert |Lows(rest)| < |Lows(nums)|;
  }

  lemma {:induction false} AfterZero(a: nat, b: nat, c: nat)
    requires a < b <= c < a + 0x1_0000 && LowHalf(a) == 0
    ensures LowHalf(b) != 0 && b / 0x1_0000 == c / 0x1_0000
  {
  }

  /** Otherwise the shift is wrong: 65000 and 65541 are read as 65000 and 65013. */
  lemma {:induction false} WrapMisread()
    ensures Decode(Pairs([65000, 65541])) == [65000, 65013]
  {
    hide BitOr, Shl, Bit, Blp, LostNumbers, Group, Extend, Decode;
    var nums := [65000, 65541];
    assert nums == [65000] + [65541];
    GroupOne(65000);
    GroupStep([65000], 65541);
    MisreadStep();
    FreshPair(65000);
    assert ClearFrom(0, 12);
    SetNextBit(Pair(65000, 0), 12);
    DecodeStep([], Group(nums).np);
    NothingDecoded();
  }

  lemma {:induction false} MisreadStep()
    ensures Extend(Grouping(Pair(65000, 0), []), LowHalf(65541)) == Grouping(Pair(65000, BitOr(0, Shl(1, 12))), [])
  {
    hide BitOr, Shl;
  }

  lemma {:induction false} NothingDecoded()
    ensures Decode([]) == []
  {
  }

  /** There is a pair exactly when some low half is not 0. */
  lemma {:induction false} PairsEmptyIff(nums: seq<nat>)
    ensures Pairs(nums) == [] <==> forall i :: 0 <= i < |nums| ==> nums[i] % 0x1_0000 == 0
    ensures Group(nums).np.packetId == 0 ==> Group(nums).nps == []
  {
    if nums != [] {
      var k := |nums| - 1;
      assert nums == nums[..k] + [nums[k]];
      PairsEmptyIff(nums[..k]);
      hide BitOr, Shl;
    }
  }

  // ---------------------------------------------------------------- optimality

  /** The pair stands for the number; `straight` asks that it does so without wrapping. */
  ghost predicate Covers(p: Pair, lo: u16, straight: bool) { lo in LostNumbers(p) && (straight ==> p.packetId <= lo) }

  ghost predicate Covered(ps: seq<Pair>, lo: u16, straight: bool) {
    exists j :: 0 <= j < |ps| && Covers(ps[j], lo, straight)
  }

  ghost predicate CoverAll(ps: seq<Pair>, los: seq<u16>, straight: bool) {
    forall i :: 0 <= i < |los| ==> Covered(ps, los[i], straight)
  }

  lemma {:induction false} BlpRange(p: Pair, k: nat, lo: u16) returns (d: nat)
    requires k <= 16 && lo in Blp(p, k)
    ensures 1 <= d <= k && lo == (p.packetId + d) % 0x1_0000
  {
    if lo in Blp(p, k - 1) {
      d := BlpRange(p, k - 1, lo);
    } else {
      d := k;
    }
  }

  /** One pair cannot cover two numbers that are more than 16 apart, if it does not wrap or they keep away
      from the wrap. */
  lemma {:induction false} PairReach(p: Pair, a: u16, b: u16, straight: bool)
    requires Covers(p, a, straight) && Covers(p, b, straight) && a < b && (straight || (1 <= a && b <= 65519))
    ensures b - a <= 16
  {
    var da, db := 0, 0;
    if a != p.packetId { da := BlpRange(p, 16, a); }
    if b != p.packetId { db := BlpRange(p, 16, b); }
  }

  /** Numbers that no pair can cover two of. */
  ghost predicate Spaced(heads: seq<u16>) {
    forall i, j :: 0 <= i < j < |heads| ==> 16 < heads[j] as int - heads[i]
  }

  lemma {:induction false} OnePairEach(heads: seq<u16>, ps: seq<Pair>, straight: bool)
    requires Spaced(heads) && CoverAll(ps, heads, straight)
    requires straight || forall i :: 0 <= i < |heads| ==> 1 <= heads[i] <= 65519
    ensures |heads| <= |ps|
  {
    if heads != [] {
      var k := |heads| - 1;
      assert Covered(ps, heads[k], straight);
      var j :| 0 <= j < |ps| && Covers(ps[j], heads[k], straight);
      var others := ps[..j] + ps[j + 1..];
      var init := heads[..k];
      forall i | 0 <= i < |init| ensures Covered(others, init[i], straight) {
        assert init[i] == heads[i] && Covered(ps, heads[i], straight);
        var t :| 0 <= t < |ps| && Covers(ps[t], heads[i], straight);
        if t == j { PairReach(ps[j], heads[i], heads[k], straight); }
        var t' := if t < j then t else t - 1;
        assert others[t'] == ps[t];
      }
      OnePairEach(init, others, straight);
    }
  }

  function Heads(ps: seq<Pair>): seq<u16> { seq(|ps|, i requires 0 <= i < |ps| => ps[i].packetId) }

  /** The pair open before the last number has a bound PID + 16 that does not wrap. */
  predicate PidsBounded(nums: seq<nat>) {
    |nums| > 1 ==> Group(nums[..|nums| - 1]).np.packetId < 65520
  }

  /** Then the first numbers of the pairs are each more than 16 beyond the one before. */
  lemma {:induction false} HeadsSpaced(nums: seq<nat>)
    requires nums != [] && Ascending(nums) && OneCycle(nums) && LowHalf(nums[0]) != 0 && PidsBounded(nums)
    ensures var hs := Heads(Pairs(nums));
            && Spaced(hs) && hs != []
            && hs[|hs| - 1] == Group(nums).np.packetId <= LowHalf(nums[|nums| - 1])
            && forall i :: 0 <= i < |hs| ==> 1 <= hs[i]
  {
    hide BitOr, Shl, Extend;
    var k := |nums| - 1;
    var init := nums[..k];
    if k == 0 {
      GroupOne(nums[0]);
      assert nums == [nums[0]];
      assert Heads(Pairs(nums)) == [LowHalf(nums[0])];
    } else {
      PidsGrow(init);
      HeadsSpaced(init);
      var g, lo := Group(init), LowHalf(nums[k]);
      SameCycle(nums[k - 1], nums[k]);
      assert nums[k - 1] / 0x1_0000 == nums[k] / 0x1_0000;
      assert init[k - 1] == nums[k - 1];
      var hs := Heads(Pairs(init));
      ExtendHeads(g, lo);
      if lo - g.np.packetId > 16 {
        SpacedNext(hs, lo);
      }
    }
  }

  lemma {:induction false} PidsGrow(nums: seq<nat>)
    requires |nums| > 0 && Ascending(nums) && OneCycle(nums) && LowHalf(nums[0]) != 0 && Group(nums).np.packetId < 65520
    ensures PidsBounded(nums)
  {
    var k := |nums| - 1;
    if k > 0 {
      OneCycleReads(nums[..k]);
      SameCycle(nums[k - 1], nums[k]);
      assert nums[k - 1] / 0x1_0000 == nums[k] / 0x1_0000 && nums[..k][k - 1] == nums[k - 1];
    }
  }

  /** Numbers of one cycle do not wrap. */
  lemma {:induction false} OneCycleReads(nums: seq<nat>)
    requires nums != [] && Ascending(nums) && OneCycle(nums) && LowHalf(nums[0]) != 0
    ensures Distinguishable(nums) && WrapsWithBound(nums)
    ensures Open(Group(nums), LowHalf(nums[|nums| - 1])) && Group(nums).np.packetId <= LowHalf(nums[|nums| - 1])
    ensures Decode(Pairs(nums)) == Lows(nums)
  {
    assert nums[0] / 0x1_0000 == nums[|nums| - 1] / 0x1_0000;
    GroupReads(nums);
  }

  lemma {:induction false} SameCycle(a: nat, b: nat)
    ensures a < b && a / 0x1_0000 == b / 0x1_0000 ==> LowHalf(a) < LowHalf(b)
  {}

  lemma {:induction false} ExtendHeads(g: Grouping, lo: u16)
    requires 0 < g.np.packetId < lo && g.np.packetId <= 65519
    ensures Heads(Closed(Extend(g, lo))) == if lo - g.np.packetId > 16 then Heads(Closed(g)) + [lo] else Heads(Closed(g))
    ensures Extend(g, lo).np.packetId == if lo - g.np.packetId > 16 then lo else g.np.packetId
  {}

  lemma {:induction false} SpacedNext(hs: seq<u16>, lo: u16)
    requires Spaced(hs) && hs != [] && lo - hs[|hs| - 1] > 16
    ensures Spaced(hs + [lo])
  {
  }

  lemma {:induction false} HeadRead(ps: seq<Pair>, i: nat)
    requires i < |ps|
    ensures ps[i].packetId in Decode(ps)
  {
    if i == |ps| - 1 {
      assert LostNumbers(ps[i])[0] == ps[i].packetId;
    } else {
      HeadRead(ps[..|ps| - 1], i);
    }
  }

  /** No list of pairs that covers the same numbers is shorter: among lists that do not wrap, or among all
      if the numbers keep away from the wrap. */
  lemma {:induction false} Shortest(nums: seq<nat>, ps: seq<Pair>, straight: bool)
    requires nums != [] && Ascending(nums) && OneCycle(nums) && LowHalf(nums[0]) != 0 && PidsBounded(nums)
    requires straight || forall i :: 0 <= i < |nums| ==> 1 <= LowHalf(nums[i]) <= 65519
    requires CoverAll(ps, Lows(nums), straight)
    ensures |Pairs(nums)| <= |ps|
  {
    hide Group, CoverAll, Decode, Blp, LostNumbers, Distinguishable, WrapsWithBound;
    HeadsSpaced(nums);
    OneCycleReads(nums);
    HeadsCovered(nums, Pairs(nums), ps, straight);
    OnePairEach(Heads(Pairs(nums)), ps, straight);
  }

  lemma {:induction false} HeadsCovered(nums: seq<nat>, own: seq<Pair>, ps: seq<Pair>, straight: bool)
    requires Decode(own) == Lows(nums) && CoverAll(ps, Lows(nums), straight)
    requires straight || forall i :: 0 <= i < |nums| ==> 1 <= LowHalf(nums[i]) <= 65519
    ensures CoverAll(ps, Heads(own), straight)
    ensures straight || forall i :: 0 <= i < |own| ==> 1 <= Heads(own)[i] <= 65519
  {
    hide Decode, Covered, LowHalf;
    forall i | 0 <= i < |own|
      ensures Covered(ps, own[i].packetId, straight) && (straight || 1 <= own[i].packetId <= 65519)
    {
      HeadRead(own, i);
      var t :| 0 <= t < |nums| && Lows(nums)[t] == own[i].packetId;
      assert Covered(ps, Lows(nums)[t], straight);
    }
  }

  /** Away from the wrap the grouping is optimal. */
  lemma {:induction false} GroupingOptimal(nums: seq<nat>, ps: seq<Pair>)
    requires Ascending(nums) && OneCycle(nums)
    requires forall i :: 0 <= i < |nums| ==> 1 <= LowHalf(nums[i]) <= 65519
    requires CoverAll(ps, Lows(nums), false)
    ensures |Pairs(nums)| <= |ps|
  {
    if nums != [] {
      if |nums| > 1 { OneCycleReads(nums[..|nums| - 1]); }
      Shortest(nums, ps, false);
    }
  }

  // ---------------------------------------------------------------- up to the wrap

  lemma {:induction false} CoveredBy(ps: seq<Pair>, j: nat, lo: u16, straight: bool)
    requires j < |ps| && Covers(ps[j], lo, straight)
    ensures Covered(ps, lo, straight)
  {
  }

  /** Giving the last pair one number more keeps what was covered and covers that number. */
  lemma {:induction false} WidenCovers(nps: seq<Pair>, p: Pair, q: Pair, los: seq<u16>, lo: u16)
    requires CoverAll(nps + [p], los, true) && q.packetId == p.packetId <= lo && LostNumbers(q) == LostNumbers(p) + [lo]
    ensures CoverAll(nps + [q], los + [lo], true)
  {
    forall i | 0 <= i <= |los| ensures Covered(nps + [q], (los + [lo])[i], true) {
      if i < |los| {
        assert Covered(nps + [p], los[i], true);
        var j :| 0 <= j < |nps + [p]| && Covers((nps + [p])[j], los[i], true);
        assert Covers((nps + [q])[j], los[i], true);
        CoveredBy(nps + [q], j, los[i], true);
      } else {
        assert LostNumbers(q)[|LostNumbers(p)|] == lo;
        CoveredBy(nps + [q], |nps|, lo, true);
      }
    }
  }

  lemma {:induction false} FreshCovers(ps: seq<Pair>, los: seq<u16>, lo: u16)
    requires CoverAll(ps, los, true)
    ensures CoverAll(ps + [Pair(lo, 0)], los + [lo], true)
  {
    var all := ps + [Pair(lo, 0)];
    forall i | 0 <= i <= |los| ensures Covered(all, (los + [lo])[i], true) {
      if i < |los| {
        assert Covered(ps, los[i], true);
        var j :| 0 <= j < |ps| && Covers(ps[j], los[i], true);
        CoveredBy(all, j, los[i], true);
      } else {
        CoveredBy(all, |ps|, lo, true);
      }
    }
  }

  lemma {:induction false} NothingCovered()
    ensures CoverAll([], [], true)
  {
  }

  /** The open pair with one more bit. */
  function Added(p: Pair, lo: u16): Pair
    requires p.packetId < lo
  {
    Pair(p.packetId, BitOr(p.lostPackets, Shl(1, lo - p.packetId - 1)))
  }

  lemma {:induction false} AddWithin(g: Grouping, last: u16, lo: u16)
    requires Open(g, last) && g.np.packetId <= last < lo && lo - g.np.packetId <= 16
    ensures LostNumbers(Added(g.np, lo)) == LostNumbers(g.np) + [lo]
    ensures lo <= (g.np.packetId as int + 16) % 0x1_0000 ==> Extend(g, lo) == Grouping(Added(g.np, lo), g.nps)
  {
    hide BitOr, Shl, Bit, Blp, LostNumbers;
    var i := lo - g.np.packetId - 1;
    SetNextBit(g.np, i);
  }

  lemma {:induction false} StepCovers(g: Grouping, last: u16, lo: u16, los: seq<u16>)
    requires Open(g, last) && g.np.packetId <= last < lo && CoverAll(Closed(g), los, true)
    ensures CoverAll(Closed(Extend(g, lo)), los + [lo], true)
  {
    hide BitOr, Shl, Bit, Blp, LostNumbers, CoverAll;
    if lo > (g.np.packetId as int + 16) % 0x1_0000 {
      FreshCovers(Closed(g), los, lo);
    } else {
      AddWithin(g, last, lo);
      WidenCovers(g.nps, g.np, Added(g.np, lo), los, lo);
    }
  }

  /** The grouping itself covers its numbers without wrapping. */
  lemma {:induction false} GroupCovers(nums: seq<nat>)
    requires nums != [] && Ascending(nums) && OneCycle(nums) && LowHalf(nums[0]) != 0
    ensures CoverAll(Pairs(nums), Lows(nums), true)
  {
    hide BitOr, Shl, Bit, Blp, LostNumbers, CoverAll, Open, Decode, Distinguishable, WrapsWithBound, Extend, LowHalf;
    var k := |nums| - 1;
    var init := nums[..k];
    if k > 0 {
      OneCycleReads(nums);
      PrefixDistinguishable(nums);
      GroupCovers(init);
      OneCycleReads(init);
      SameCycle(nums[k - 1], nums[k]);
      assert nums[k - 1] / 0x1_0000 == nums[k] / 0x1_0000 && init[k - 1] == nums[k - 1];
      StepCovers(Group(init), LowHalf(nums[k - 1]), LowHalf(nums[k]), Lows(init));
    } else {
      assert nums == [nums[0]];
      OneCovers(nums[0]);
    }
  }

  lemma {:induction false} OneCovers(n: nat)
    requires LowHalf(n) != 0
    ensures CoverAll(Pairs([n]), Lows([n]), true)
  {
    hide CoverAll;
    GroupOne(n);
    NothingCovered();
    FreshCovers([], [], LowHalf(n));
    assert [] + [Pair(LowHalf(n), 0)] == Pairs([n]) && [] + [LowHalf(n)] == Lows([n]);
  }

  /** A number after a pair whose bound wraps opens a pair of its own, although the pair could hold it. */
  lemma {:induction false} NotShortest(nums: seq<nat>) returns (ps: seq<Pair>)
    requires |nums| > 1 && Ascending(nums) && OneCycle(nums) && LowHalf(nums[0]) != 0 && !PidsBounded(nums)
    ensures CoverAll(ps, Lows(nums), true) && |ps| < |Pairs(nums)|
  {
    hide BitOr, Shl, Bit, Blp, LostNumbers, CoverAll, Decode, Distinguishable, WrapsWithBound, Extend, ClearFrom;
    var k := |nums| - 1;
    var init := nums[..k];
    OneCycleReads(nums);
    PrefixDistinguishable(nums);
    OneCycleReads(init);
    GroupCovers(init);
    SameCycle(nums[k - 1], nums[k]);
    assert nums[k - 1] / 0x1_0000 == nums[k] / 0x1_0000 && init[k - 1] == nums[k - 1];
    var g, lo := Group(init), LowHalf(nums[k]);
    AddWithin(g, LowHalf(nums[k - 1]), lo);
    WidenCovers(g.nps, g.np, Added(g.np, lo), Lows(init), lo);
    ExtendOpens(g, lo);
    ps := g.nps + [Added(g.np, lo)];
  }

  lemma {:induction false} ExtendOpens(g: Grouping, lo: u16)
    requires 65520 <= g.np.packetId < lo
    ensures Extend(g, lo) == Grouping(Pair(lo, 0), g.nps + [g.np])
  {
    hide BitOr, Shl;
  }

  /** Up to the wrap the grouping is the shortest among lists that do not wrap exactly when the pair open
      before the last number has a PID below 65520. */
  lemma {:induction false} OptimalIff(nums: seq<nat>)
    requires Ascending(nums) && OneCycle(nums) && (nums != [] ==> LowHalf(nums[0]) != 0)
    ensures (forall ps: seq<Pair> :: CoverAll(ps, Lows(nums), true) ==> |Pairs(nums)| <= |ps|) <==> PidsBounded(nums)
  {
    if nums == [] {
      assert Pairs(nums) == [];
    } else if PidsBounded(nums) {
      forall ps: seq<Pair> | CoverAll(ps, Lows(nums), true) ensures |Pairs(nums)| <= |ps| {
        Shortest(nums, ps, true);
      }
    } else {
      var ps := NotShortest(nums);
    }
  }
}
