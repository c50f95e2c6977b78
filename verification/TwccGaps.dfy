/** Transport-wide sequence numbers: how arrivals are numbered, sorted, and completed with the packets
    missing between them. */
module TwccGaps {
  import opened Numbers
  import opened TwccFeedback

  // ---------------------------------------------------------------- unwrapping

  /** A small number after a large one starts a new cycle of 2^16. */
  function NextCycles(cycles: nat, lastSn: u16, sn: u16): nat {
    if sn < 0x0fff && lastSn > 0xf000 then cycles + 0x1_0000 else cycles
  }

  datatype Unwrapper = Unwrapper(cycles: nat, lastSn: u16, exts: seq<nat>)

  function Unwrap(sns: seq<u16>): Unwrapper {
    if sns == [] then Unwrapper(0, 0, [])
    else
      var u := Unwrap(sns[..|sns| - 1]);
      var sn := sns[|sns| - 1];
      var cycles := NextCycles(u.cycles, u.lastSn, sn);
      Unwrapper(cycles, sn, u.exts + [cycles + sn])
  }

  /** An in-order step of d < 2^16 is numbered right exactly when it does not wrap or the wrap is
      between the two thresholds. */
  lemma {:induction false} StepNumberedIff(t: nat, d: nat)
    requires d < 0x1_0000
    ensures var sn := (t + d) % 0x1_0000;
            NextCycles(t / 0x1_0000 * 0x1_0000, t % 0x1_0000, sn) + sn == t + d
            <==> (t / 0x1_0000 == (t + d) / 0x1_0000 || (t % 0x1_0000 > 0xf000 && sn < 0x0fff))
  {}

  /** Every wrap in steps of at most 4095 lies between the thresholds; 4096 is already too far. */
  lemma {:induction false} StepLimit(t: nat, d: nat)
    ensures d <= 4095 ==> var sn := (t + d) % 0x1_0000;
                          NextCycles(t / 0x1_0000 * 0x1_0000, t % 0x1_0000, sn) + sn == t + d
    ensures NextCycles(0, 0xf000, (0xf000 + 4096) % 0x1_0000) + (0xf000 + 4096) % 0x1_0000 != 0xf000 + 4096
  {
  }

  /** A packet that comes late, behind t in the order of numbers, is numbered right exactly when it belongs
      to the cycle of t and does not look like the beginning of the next one. */
  lemma {:induction false} LateNumberedIff(t: nat, late: nat)
    requires late <= t < late + 0x1_0000
    ensures NextCycles(t / 0x1_0000 * 0x1_0000, t % 0x1_0000, late % 0x1_0000) + late % 0x1_0000 == late
       <==> late / 0x1_0000 == t / 0x1_0000 && !(t % 0x1_0000 > 0xf000 && late % 0x1_0000 < 0x0fff)
  {}

  function Low16(ts: seq<nat>): seq<u16> { seq(|ts|, i requires 0 <= i < |ts| => ts[i] % 0x1_0000) }

  /** A whole in-order stream with steps of at most 4095 gets its true extended numbers. */
  lemma {:induction false} UnwrapInOrder(ts: seq<nat>)
    requires ts != [] ==> ts[0] < 0x1_0000
    requires forall i :: 0 < i < |ts| ==> ts[i - 1] <= ts[i] <= ts[i - 1] + 4095
    ensures Unwrap(Low16(ts)).exts == ts
    ensures ts != [] ==> var t := ts[|ts| - 1];
                         Unwrap(Low16(ts)).cycles == t / 0x1_0000 * 0x1_0000 && Unwrap(Low16(ts)).lastSn == t % 0x1_0000
  {
    if ts != [] {
      var init := ts[..|ts| - 1];
      UnwrapInOrder(init);
      UnwrapNext(ts);
      hide NextCycles, Unwrap;
      assert init + [ts[|init|]] == ts;
      UnwrapStep(Unwrap(Low16(init)), if init == [] then 0 else ts[|init| - 1], ts[|init|]);
    }
  }

  lemma {:induction false} UnwrapNext(ts: seq<nat>)
    requires ts != []
    ensures var u, sn := Unwrap(Low16(ts[..|ts| - 1])), ts[|ts| - 1] % 0x1_0000;
            var cycles := NextCycles(u.cycles, u.lastSn, sn);
            Unwrap(Low16(ts)) == Unwrapper(cycles, sn, u.exts + [cycles + sn])
    ensures Unwrap(Low16([])) == Unwrapper(0, 0, [])
  {
    hide NextCycles;
    assert Low16(ts)[..|ts| - 1] == Low16(ts[..|ts| - 1]);
  }

  lemma {:induction false} UnwrapStep(u: Unwrapper, s: nat, t: nat)
    requires u.cycles == s / 0x1_0000 * 0x1_0000 && u.lastSn == s % 0x1_0000
    requires s <= t <= s + 4095 || (s == 0 && t < 0x1_0000)
    ensures var cycles := NextCycles(u.cycles, u.lastSn, t % 0x1_0000);
            cycles == t / 0x1_0000 * 0x1_0000 && cycles + t % 0x1_0000 == t
  {
  }

  // ---------------------------------------------------------------- gaps

  /** The numbers lo, ..., hi - 1, none of them received. */
  function Missing(lo: nat, hi: u32): seq<Arrival> {
    if hi <= lo then [] else seq(hi - lo, i requires 0 <= i < hi - lo => Arrival(lo + i, 0))
  }

  datatype Expansion = Expansion(last: u32, pkts: seq<Arrival>)

  /** Arrivals taken in the given order; the numbers skipped over become packets not received. */
  function Expand(last: u32, infos: seq<Arrival>): Expansion {
    if infos == [] then Expansion(last, [])
    else
      var r := Expand(last, infos[..|infos| - 1]);
      Accept(r, infos[|infos| - 1])
  }

  function Accept(r: Expansion, e: Arrival): Expansion {
    if e.extSn < r.last then r
    else Expansion(e.extSn, r.pkts + (if r.last != 0 then Missing(r.last + 1, e.extSn) else []) + [e])
  }

  ghost predicate Consecutive(pkts: seq<Arrival>) {
    forall i :: 0 <= i < |pkts| - 1 ==> pkts[i + 1].extSn == pkts[i].extSn + 1
  }

  ghost predicate DistinctNumbers(infos: seq<Arrival>) {
    forall i, j :: 0 <= i < j < |infos| ==> infos[i].extSn != infos[j].extSn
  }

  /** The first report starts with number 0, which doubles as "nothing reported yet", and 1 is missing. */
  predicate ZeroGap(last: u32, infos: seq<Arrival>) {
    last == 0 && |infos| >= 2 && infos[0].extSn == 0 && infos[1].extSn != 1
  }

  /** In whatever order distinct numbers come, the report is a gapless range, so that a position in it
      stands for a sequence number, unless a gap follows number 0. */
  lemma {:induction false} GaplessIff(last: u32, infos: seq<Arrival>)
    requires DistinctNumbers(infos)
    ensures var r := Expand(last, infos);
            && (Consecutive(r.pkts) <==> !ZeroGap(last, infos))
            && (if r.pkts == [] then r.last == last && (infos != [] ==> last != 0)
                else r.last == r.pkts[|r.pkts| - 1].extSn && Numbered(infos, r.last))
            && last <= r.last && (r.last == 0 && infos != [] ==> |infos| == 1 && r.pkts == infos)
  {
    if infos != [] {
      var k := |infos| - 1;
      var init, e := infos[..k], infos[k];
      assert infos == init + [e];
      GaplessIff(last, init);
      hide Consecutive, ZeroGap, Accept, Numbered, DistinctNumbers;
      AcceptGapless(last, init, Expand(last, init), e);
    }
  }

  ghost predicate Numbered(infos: seq<Arrival>, sn: nat) {
    exists i :: 0 <= i < |infos| && infos[i].extSn == sn
  }

  lemma {:induction false} AcceptGapless(last: u32, init: seq<Arrival>, r: Expansion, e: Arrival)
    requires DistinctNumbers(init + [e])
    requires Consecutive(r.pkts) <==> !ZeroGap(last, init)
    requires if r.pkts == [] then r.last == last && (init != [] ==> last != 0)
             else r.last == r.pkts[|r.pkts| - 1].extSn && Numbered(init, r.last)
    requires last <= r.last && (r.last == 0 && init != [] ==> |init| == 1 && r.pkts == init)
    ensures var q := Accept(r, e);
            && (Consecutive(q.pkts) <==> !ZeroGap(last, init + [e]))
            && (if q.pkts == [] then q.last == last && last != 0
                else q.last == q.pkts[|q.pkts| - 1].extSn && Numbered(init + [e], q.last))
            && last <= q.last && (q.last == 0 ==> |init + [e]| == 1 && q.pkts == init + [e])
  {
    var infos, q := init + [e], Accept(r, e);
    assert infos[|init|] == e;
    assert forall i :: 0 <= i < |init| ==> infos[i] == init[i];
    if i :| 0 <= i < |init| && init[i].extSn == r.last {
      assert infos[i].extSn == r.last && r.last != e.extSn;
    }
    if e.extSn >= r.last {
      AppendGapless(r, e);
    }
  }

  lemma {:induction false} AppendGapless(r: Expansion, e: Arrival)
    requires e.extSn >= r.last && (r.pkts != [] ==> r.last == r.pkts[|r.pkts| - 1].extSn != e.extSn)
    ensures Consecutive(Accept(r, e).pkts) <==> Consecutive(r.pkts) && (r.pkts != [] && r.last == 0 ==> e.extSn == 1)
  {
    var q := Accept(r, e);
    assert forall i :: 0 <= i < |r.pkts| ==> q.pkts[i] == r.pkts[i];
    if r.pkts != [] && r.last == 0 {
      assert q.pkts == r.pkts + [e];
      assert q.pkts[|r.pkts|] == e;
    }
  }

  ghost predicate Ascending(infos: seq<Arrival>) {
    forall i, j :: 0 <= i < j < |infos| ==> infos[i].extSn < infos[j].extSn
  }

  /** Where a report begins: behind the last number reported, or with the first arrival ever. */
  function First(last: u32, infos: seq<Arrival>): nat
    requires infos != []
  {
    if last != 0 then last + 1 else infos[0].extSn
  }

  /** The report runs from its first number to the largest, every arrival stands at the position of its
      number with its timestamp, and nothing else is reported as received. */
  ghost predicate ReportsAll(first: nat, infos: seq<Arrival>, r: Expansion) {
    && |r.pkts| == r.last - first + 1
    && (forall i :: 0 <= i < |r.pkts| ==> r.pkts[i].extSn == first + i)
    && (forall e :: e in infos ==> first <= e.extSn <= r.last && r.pkts[e.extSn - first] == e)
    && (forall i :: 0 <= i < |r.pkts| && r.pkts[i].timestamp != 0 ==> r.pkts[i] in infos)
  }

  lemma {:induction false} AcceptNext(first: nat, infos: seq<Arrival>, r: Expansion, e: Arrival)
    requires ReportsAll(first, infos, r) && e.extSn > r.last && (r.last == 0 ==> e.extSn == 1)
    ensures ReportsAll(first, infos + [e], Accept(r, e))
  {
    var q := Accept(r, e);
    assert q.pkts == r.pkts + Missing(r.last + 1, e.extSn) + [e];
  }

  lemma {:induction false} ReportsConsecutive(first: nat, infos: seq<Arrival>, r: Expansion)
    requires ReportsAll(first, infos, r)
    ensures Consecutive(r.pkts)
  {
  }

  lemma {:induction false} PrefixZeroGap(last: u32, init: seq<Arrival>, e: Arrival)
    requires init != [] && !ZeroGap(last, init + [e])
    ensures !ZeroGap(last, init) && First(last, init) == First(last, init + [e])
    ensures last == 0 && init[0].extSn == 0 && |init| == 1 ==> e.extSn == 1
  {
    var infos := init + [e];
    assert infos[|init|] == e;
    assert forall i :: 0 <= i < |init| ==> infos[i] == init[i];
  }

  /** Taken in ascending order, the report is complete, from the very first one on, unless a gap follows
      number 0. */
  lemma {:induction false} ExpandAscendingIff(last: u32, infos: seq<Arrival>)
    requires infos != [] && Ascending(infos) && (last != 0 ==> infos[0].extSn > last)
    ensures ReportsAll(First(last, infos), infos, Expand(last, infos)) <==> !ZeroGap(last, infos)
    ensures Expand(last, infos).last == infos[|infos| - 1].extSn
  {
    hide ReportsAll, Consecutive, ZeroGap, First, Numbered, DistinctNumbers, Accept, Expand;
    var k := |infos| - 1;
    var init, e := infos[..k], infos[k];
    assert infos == init + [e];
    ExpandStep(last, init, e);
    if k > 0 {
      AscendingPrefix(infos);
      ExpandAscendingIff(last, init);
      if ZeroGap(last, infos) {
        NoReport(last, infos);
      } else {
        PrefixZeroGap(last, init, e);
        AcceptAscending(last, init, e);
      }
    } else {
      assert infos == [e];
      FirstAccepted(last, e);
    }
  }

  lemma {:induction false} ExpandStep(last: u32, init: seq<Arrival>, e: Arrival)
    ensures Expand(last, init + [e]) == Accept(Expand(last, init), e)
    ensures e.extSn >= Expand(last, init).last ==> Accept(Expand(last, init), e).last == e.extSn
  {
    assert (init + [e])[..|init|] == init;
  }

  lemma {:induction false} AcceptAscending(last: u32, init: seq<Arrival>, e: Arrival)
    requires init != [] && Ascending(init) && init[|init| - 1].extSn < e.extSn
    requires ReportsAll(First(last, init), init, Expand(last, init)) && Expand(last, init).last == init[|init| - 1].extSn
    requires init[0].extSn == 0 && |init| == 1 ==> e.extSn == 1
    ensures ReportsAll(First(last, init), init + [e], Accept(Expand(last, init), e))
  {
    hide ReportsAll;
    FirstBelowLast(init);
    AcceptNext(First(last, init), init, Expand(last, init), e);
  }

  lemma {:induction false} NoReport(last: u32, infos: seq<Arrival>)
    requires infos != [] && Ascending(infos) && ZeroGap(last, infos)
    ensures !ReportsAll(First(last, infos), infos, Expand(last, infos))
  {
    GaplessIff(last, infos);
    if ReportsAll(First(last, infos), infos, Expand(last, infos)) {
      ReportsConsecutive(First(last, infos), infos, Expand(last, infos));
    }
  }

  lemma {:induction false} FirstBelowLast(init: seq<Arrival>)
    requires init != [] && Ascending(init)
    ensures |init| > 1 ==> init[0].extSn < init[|init| - 1].extSn
  {
  }

  lemma {:induction false} FirstAccepted(last: u32, e: Arrival)
    requires last != 0 ==> e.extSn > last
    ensures Expand(last, [e]) == Accept(Expansion(last, []), e) && Expand(last, [e]).last == e.extSn
    ensures ReportsAll(First(last, [e]), [e], Expand(last, [e])) && !ZeroGap(last, [e])
  {
    assert [e][..0] == [];
    if last != 0 {
      AcceptNext(last + 1, [], Expansion(last, []), e);
      assert [] + [e] == [e];
    }
  }

  lemma {:induction false} AscendingPrefix(infos: seq<Arrival>)
    requires Ascending(infos) && infos != []
    ensures var k := |infos| - 1;
            Ascending(infos[..k]) && (k > 0 ==> infos[..k][0] == infos[0] && infos[..k][k - 1].extSn < infos[k].extSn)
  {}

  // ---------------------------------------------------------------- the order the report uses

  ghost predicate Descending(infos: seq<Arrival>) {
    forall i, j :: 0 <= i < j < |infos| ==> infos[i].extSn >= infos[j].extSn
  }

  /** Stable insertion behind all numbers that are not smaller. */
  function InsertDescending(e: Arrival, sorted: seq<Arrival>): seq<Arrival> {
    if sorted == [] || sorted[|sorted| - 1].extSn >= e.extSn then sorted + [e]
    else InsertDescending(e, sorted[..|sorted| - 1]) + [sorted[|sorted| - 1]]
  }

  function SortDescending(infos: seq<Arrival>): seq<Arrival> {
    if infos == [] then [] else InsertDescending(infos[|infos| - 1], SortDescending(infos[..|infos| - 1]))
  }

  lemma {:induction false} InsertSorts(e: Arrival, sorted: seq<Arrival>)
    requires Descending(sorted)
    ensures Descending(InsertDescending(e, sorted))
    ensures multiset(InsertDescending(e, sorted)) == multiset(sorted) + multiset{e}
  {
    if sorted != [] && sorted[|sorted| - 1].extSn < e.extSn {
      var init, last := sorted[..|sorted| - 1], sorted[|sorted| - 1];
      assert init + [last] == sorted;
      InsertSorts(e, init);
      AppendSmallest(InsertDescending(e, init), init, e, last);
    }
  }

  lemma {:induction false} AppendSmallest(r: seq<Arrival>, init: seq<Arrival>, e: Arrival, last: Arrival)
    requires Descending(r) && multiset(r) == multiset(init) + multiset{e}
    requires e.extSn > last.extSn && forall i :: 0 <= i < |init| ==> init[i].extSn >= last.extSn
    ensures Descending(r + [last])
    ensures multiset(r + [last]) == multiset(init + [last]) + multiset{e}
  {
    forall i | 0 <= i < |r| ensures r[i].extSn >= last.extSn {
      assert r[i] in multiset(r);
      if r[i] != e { assert r[i] in init; }
    }
  }

  lemma {:induction false} SortSorts(infos: seq<Arrival>)
    ensures Descending(SortDescending(infos))
    ensures multiset(SortDescending(infos)) == multiset(infos)
  {
    if infos != [] {
      var init, last := infos[..|infos| - 1], infos[|infos| - 1];
      assert init + [last] == infos;
      SortSorts(init);
      InsertSorts(last, SortDescending(init));
    }
  }

  /** In descending order only the largest number is taken: the rest are below it. */
  lemma {:induction false} ExpandDescending(last: u32, infos: seq<Arrival>)
    requires Descending(infos) && DistinctNumbers(infos) && infos != []
    ensures Expand(last, infos) == Accept(Expansion(last, []), infos[0])
  {
    var k := |infos| - 1;
    if k > 0 {
      var init := infos[..k];
      ExpandDescending(last, init);
      assert init[0] == infos[0] && infos[0].extSn != infos[k].extSn;
    } else {
      assert infos[..k] == [];
    }
  }

  /** So a report taken from new arrivals shows all that were received, those with a time other than 0,
      exactly when none of them but the one with the largest number was: any other is skipped. It stands in
      the report as not received, or, in the first report, which is the largest number alone, not at all. */
  lemma {:induction false} ReportCompleteIff(last: u32, infos: seq<Arrival>)
    requires infos != [] && DistinctNumbers(infos)
    requires last != 0 ==> forall i :: 0 <= i < |infos| ==> infos[i].extSn > last
    ensures var pkts := Expand(last, SortDescending(infos)).pkts;
            && ((forall i :: 0 <= i < |infos| && infos[i].timestamp != 0 ==> infos[i] in pkts)
                <==> forall i :: 0 <= i < |infos| && infos[i].timestamp != 0 ==> Largest(infos, infos[i]))
            && (last == 0 ==> |pkts| == 1)
            && forall i :: 0 <= i < |infos| && !Largest(infos, infos[i]) ==>
                 (infos[i].timestamp != 0 ==> infos[i] !in pkts) && (Arrival(infos[i].extSn, 0) in pkts <==> last != 0)
  {
    var sorted := SortDescending(infos);
    SortSorts(infos);
    SameMembers(infos, sorted);
    TopOnly(last, sorted);
    forall i | 0 <= i < |infos| ensures Largest(infos, infos[i]) <==> infos[i] == sorted[0] {
      TopIsLargest(infos, sorted, infos[i]);
    }
    forall i | 0 <= i < |infos| ensures infos[i] in sorted {}
  }

  ghost predicate Largest(infos: seq<Arrival>, e: Arrival) {
    forall i :: 0 <= i < |infos| ==> infos[i].extSn <= e.extSn
  }

  lemma {:induction false} TopIsLargest(infos: seq<Arrival>, sorted: seq<Arrival>, e: Arrival)
    requires sorted != [] && Descending(sorted) && DistinctNumbers(sorted) && e in infos && forall x :: x in infos <==> x in sorted
    ensures Largest(infos, e) <==> e == sorted[0]
  {
    assert sorted[0] in infos;
    forall i | 0 <= i < |infos| ensures infos[i].extSn <= sorted[0].extSn {
      assert infos[i] in sorted;
    }
    assert e in sorted;
    var j :| 0 <= j < |sorted| && sorted[j] == e;
    var k :| 0 <= k < |infos| && infos[k] == sorted[0];
  }

  lemma {:induction false} TopOnly(last: u32, sorted: seq<Arrival>)
    requires Descending(sorted) && DistinctNumbers(sorted) && sorted != []
    requires last != 0 ==> forall e :: e in sorted ==> e.extSn > last
    ensures var pkts := Expand(last, sorted).pkts;
            && sorted[0] in pkts && (last == 0 ==> pkts == [sorted[0]])
            && forall e :: e in sorted && e != sorted[0] ==> (e.timestamp != 0 ==> e !in pkts) && (Arrival(e.extSn, 0) in pkts <==> last != 0)
  {
    ExpandDescending(last, sorted);
    var pkts := Expand(last, sorted).pkts;
    assert sorted[0] in sorted;
    if last != 0 {
      assert pkts == [] + Missing(last + 1, sorted[0].extSn) + [sorted[0]];
      assert pkts == Missing(last + 1, sorted[0].extSn) + [sorted[0]];
      assert pkts[|pkts| - 1] == sorted[0];
      ShadowedIn(last, sorted, pkts);
    } else {
      assert pkts == [] + [] + [sorted[0]];
    }
  }

  lemma {:induction false} ShadowedIn(last: u32, sorted: seq<Arrival>, pkts: seq<Arrival>)
    requires Descending(sorted) && DistinctNumbers(sorted) && sorted != []
    requires forall e :: e in sorted ==> e.extSn > last
    requires pkts == Missing(last + 1, sorted[0].extSn) + [sorted[0]]
    ensures forall e :: e in sorted && e != sorted[0] ==> (e.timestamp != 0 ==> e !in pkts) && Arrival(e.extSn, 0) in pkts
  {
    forall e | e in sorted && e != sorted[0] ensures (e.timestamp != 0 ==> e !in pkts) && Arrival(e.extSn, 0) in pkts {
      var i :| 0 <= i < |sorted| && sorted[i] == e;
      assert sorted[0].extSn > e.extSn;
      assert pkts[e.extSn - last - 1] == Arrival(e.extSn, 0);
    }
  }

  lemma {:induction false} SameMembers(a: seq<Arrival>, b: seq<Arrival>)
    requires multiset(a) == multiset(b) && DistinctNumbers(a)
    ensures |a| == |b| && DistinctNumbers(b)
    ensures forall x :: x in a <==> x in b
  {
    assert |multiset(a)| == |a| && |multiset(b)| == |b|;
    forall x ensures x in a <==> x in b {
      assert x in a <==> x in multiset(a);
      assert x in b <==> x in multiset(b);
    }
    forall i, j | 0 <= i < j < |b| ensures b[i].extSn != b[j].extSn {
      if b[i].extSn == b[j].extSn {
        assert b[i] in a && b[j] in a;
        var p :| 0 <= p < |a| && a[p] == b[i];
        var q :| 0 <= q < |a| && a[q] == b[j];
        assert p == q;
        Twice(b, i, j);
        Once(a, p);
      }
    }
  }

  lemma {:induction false} Twice(b: seq<Arrival>, i: nat, j: nat)
    requires i < j < |b| && b[i] == b[j]
    ensures multiset(b)[b[i]] >= 2
  {
    assert b == b[..j] + b[j..];
    assert b[i] in b[..j] && b[j..][0] == b[j];
  }

  lemma {:induction false} Once(a: seq<Arrival>, p: nat)
    requires p < |a| && DistinctNumbers(a)
    ensures multiset(a)[a[p]] == 1
  {
    assert a == a[..p] + [a[p]] + a[p + 1..];
    assert a[p] !in a[..p] && a[p] !in a[p + 1..];
  }
}
