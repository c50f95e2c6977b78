/** The responder that collects arrivals and appends feedback reports to its payload. */
module TwccResponder {
  import opened Numbers
  import opened Wrappers
  import opened TwccWire
  import opened TwccPacker
  import opened TwccRuns
  import opened TwccFeedback
  import opened TwccGaps

  /** The RTCP library refuses to put the message header into the empty buffer it is given. */
  datatype Error = ExtInfoEmpty | BufferTooShort

  class Responder {
    var extInfo: seq<Arrival>
    var lastReport: int
    var cycles: nat
    var lastExtSn: u32
    var pktCtn: u8
    var lastSn: u16
    var mSsrc: u32
    var sSsrc: u32
    var len: u16
    var deltaLen: nat
    var payload: seq<u8>
    var deltas: seq<u8>
    var chunk: u16

    /** The sender SSRC is drawn at random. */
    constructor (ssrc: u32, senderSsrc: u32)
      ensures extInfo == [] && cycles == 0 && lastExtSn == 0 && lastSn == 0 && pktCtn == 0
      ensures payload == [] && deltas == [] && chunk == 0 && deltaLen == 0 && len == 0
      ensures mSsrc == ssrc && sSsrc == senderSsrc
    {
      extInfo, lastReport, cycles, lastExtSn, pktCtn, lastSn := [], 0, 0, 0, 0, 0;
      mSsrc, sSsrc := ssrc, senderSsrc;
      len, deltaLen, payload, deltas, chunk := 0, 0, [], [], 0;
    }

    /** Records an arrival under its extended number; TwccGaps.UnwrapInOrder says when that number is
        the true one. */
    method Push(sn: u16, timeNs: int)
      requires cycles % 0x1_0000 == 0 && cycles + 0x1_0000 < 0x1_0000_0000
      modifies this`cycles, this`extInfo, this`lastReport, this`lastSn
      ensures cycles == NextCycles(old(cycles), old(lastSn), sn) && cycles % 0x1_0000 == 0
      ensures lastSn == sn
      ensures extInfo == old(extInfo) + [Arrival(cycles + sn, TruncDiv(timeNs, 100))]
      ensures lastReport == if old(lastReport) == 0 then timeNs else old(lastReport)
    {
      if sn < 0x0fff && lastSn > 0xf000 {
        cycles := cycles + 0x1_0000;
      }
      extInfo := extInfo + [Arrival(cycles + sn, TruncDiv(timeNs, 100))];
      if lastReport == 0 {
        lastReport := timeNs;
      }
      lastSn := sn;
    }

    /** Fills the gaps between the arrivals in the order they are given. */
    method ExpandGaps(infos: seq<Arrival>) returns (pkts: seq<Arrival>)
      modifies this`lastExtSn
      ensures Expansion(lastExtSn, pkts) == Expand(old(lastExtSn), infos)
    {
      hide Expand, Missing;
      pkts := [];
      var i := 0;
      assert infos[..0] == [];
      NothingExpanded(lastExtSn);
      while i < |infos|
        invariant 0 <= i <= |infos|
        invariant Expansion(lastExtSn, pkts) == Expand(old(lastExtSn), infos[..i])
      {
        ExpandNext(old(lastExtSn), infos, i);
        var e := infos[i];
        i := i + 1;
        if e.extSn < lastExtSn { continue; }
        if lastExtSn != 0 {
          var gap := FillGap(lastExtSn + 1, e.extSn);
          pkts := pkts + gap;
        }
        lastExtSn := e.extSn;
        pkts := pkts + [e];
      }
      assert infos[..i] == infos;
    }

    /** The numbers from..to - 1, none of them received. */
    method FillGap(from: nat, to: u32) returns (gap: seq<Arrival>)
      ensures gap == Missing(from, to)
    {
      gap := [];
      var idx := from;
      while idx < to
        invariant from <= idx && (idx <= to || idx == from)
        invariant gap == if idx < 0x1_0000_0000 then Missing(from, idx) else []
      {
        gap := gap + [Arrival(idx, 0)];
        idx := idx + 1;
      }
    }

    /** Builds the report for all recorded arrivals and appends it to payload and deltas, and then fails to
        frame it as a message. */
    method Build() returns (r: Result<(), Error>)
      requires chunk == 0
      modifies this
      ensures old(extInfo) == [] ==> r == Err(ExtInfoEmpty) && payload == old(payload) && deltas == old(deltas) && lastExtSn == old(lastExtSn)
      ensures old(extInfo) != [] ==>
        var e := Expand(old(lastExtSn), SortDescending(old(extInfo)));
        && r == Err(BufferTooShort) && extInfo == [] && lastExtSn == e.last && chunk == 0
        && AllWritable(Packetize(Statuses(e.pkts)))
        && payload == old(payload) + PayloadBytes(e.pkts, sSsrc, mSsrc, old(pktCtn))
        && deltas == old(deltas) + DeltaBytes(e.pkts)
        && deltaLen == old(deltaLen) + |DeltaBytes(e.pkts)|
        && pktCtn == if FirstTime(e.pkts).Some? then (old(pktCtn) + 1) % 0x100 else old(pktCtn)
      ensures sSsrc == old(sSsrc) && mSsrc == old(mSsrc) && cycles == old(cycles) && lastSn == old(lastSn)
    {
      hide Packetize, Statuses, DeltaBytes, Expand, SortDescending, PayloadBytes, FirstTime, ChunkBytes;
      if |extInfo| == 0 {
        return Err(ExtInfoEmpty);
      }
      var pkts := ExpandGaps(SortDescending(extInfo));
      extInfo := [];
      Report(pkts);
      r := Err(BufferTooShort);
    }

    /** The packetizing loop: header, deltas and status chunks for the given packets. */
    method Report(pkts: seq<Arrival>)
      requires chunk == 0
      modifies this`payload, this`deltas, this`deltaLen, this`chunk, this`len, this`pktCtn
      ensures AllWritable(Packetize(Statuses(pkts)))
      ensures payload == old(payload) + PayloadBytes(pkts, sSsrc, mSsrc, old(pktCtn))
      ensures deltas == old(deltas) + DeltaBytes(pkts)
      ensures deltaLen == old(deltaLen) + |DeltaBytes(pkts)|
      ensures pktCtn == if FirstTime(pkts).Some? then (old(pktCtn) + 1) % 0x100 else old(pktCtn)
      ensures chunk == 0
    {
      hide Word, Flatten, Step, HeaderFor, StatusOf, DeltaBytesOf, BitOr, Shl, Low, Fields, DecodeWord;
      hide Run, Statuses, DeltaBytes, Clock, FirstTime, ChunkBytes, Finish;
      EmptyReport();
      var firstRecv, timestamp := false, 0;
      var p := START;
      ghost var head := payload;
      StatusesReportable(pkts);
      PacketizeCovers(Statuses(pkts));
      var k := 0;
      while k < |pkts|
        invariant 0 <= k <= |pkts| && chunk == 0
        invariant p == Run(Statuses(pkts[..k])) && Pending(p) && AllFull(p.out)
        invariant firstRecv == FirstTime(pkts[..k]).Some? == Clock(pkts[..k]).Some?
        invariant firstRecv ==> timestamp == Clock(pkts[..k]).value
        invariant head == old(payload) + HeaderSoFar(pkts, k, sSsrc, mSsrc, old(pktCtn))
        invariant payload == head + ChunkBytes(p.out)
        invariant deltas == old(deltas) + DeltaBytes(pkts[..k])
        invariant deltaLen == old(deltaLen) + |DeltaBytes(pkts[..k])|
        invariant pktCtn == if firstRecv then (old(pktCtn) + 1) % 0x100 else old(pktCtn)
      {
        PrefixStep(pkts, k);
        if !firstRecv { NothingWritten(pkts[..k]); }
        var status;
        firstRecv, timestamp, status := RecordArrival(pkts, k, firstRecv, timestamp);
        head := head + if FirstTime(pkts[..k]).None? && firstRecv then HeaderFor(pkts, sSsrc, mSsrc, old(pktCtn)) else [];
        StepKeeps(p, status);
        p := PackStatus(p, status, head);
        k := k + 1;
      }
      assert pkts[..k] == pkts;
      HeaderComplete(pkts, sSsrc, mSsrc, old(pktCtn));
      PackRest(p, head);
    }

    /** rsfu/src/twcc/twcc.rs:177-216 of the loop body: the status of one packet, its delta, and the header when it
        is the first one received. */
    method RecordArrival(pkts: seq<Arrival>, k: nat, seen: bool, clock: int) returns (firstRecv: bool, timestamp: int, status: Status)
      requires k < |pkts| && seen == Clock(pkts[..k]).Some? == FirstTime(pkts[..k]).Some?
      requires seen ==> clock == Clock(pkts[..k]).value
      modifies this`payload, this`deltas, this`deltaLen, this`pktCtn
      ensures status == StatusOf(Clock(pkts[..k]), pkts[k].timestamp) && status != WithoutDelta
      ensures firstRecv == (seen || pkts[k].timestamp != 0)
      ensures timestamp == if pkts[k].timestamp != 0 then pkts[k].timestamp else clock
      ensures payload == old(payload) + if !seen && firstRecv then HeaderFor(pkts, sSsrc, mSsrc, old(pktCtn)) else []
      ensures pktCtn == if !seen && firstRecv then (old(pktCtn) + 1) % 0x100 else old(pktCtn)
      ensures deltas == old(deltas) + DeltaBytesOf(Clock(pkts[..k]), pkts[k].timestamp)
      ensures deltaLen == old(deltaLen) + |DeltaBytesOf(Clock(pkts[..k]), pkts[k].timestamp)|
    {
      hide HeaderBytes, FirstTime, Statuses, DeltaBytes, Run, BitOr, Shl;
      var ts := pkts[k].timestamp;
      firstRecv, timestamp, status := seen, clock, NotReceived;
      if ts != 0 {
        if !firstRecv {
          PrefixStep(pkts, k);
          firstRecv := true;
          var refTime := TruncDiv(ts, 64000);
          timestamp := refTime * 64000;
          WriteHeader(pkts[0].extSn % 0x1_0000, |pkts| % 0x1_0000, refTime % 0x1_0000_0000);
          pktCtn := (pktCtn + 1) % 0x100;
        }
        var delta := TruncDiv(ts - timestamp, 250);
        if !(0 <= delta <= 255) {
          status := LargeDelta;
          var rDelta := AsI16(delta);
          if rDelta != delta {
            if rDelta > 0 { rDelta := 0x7fff; } else { rDelta := -0x8000; }
          }
          WriteDelta(status, rDelta % 0x1_0000);
        } else {
          status := SmallDelta;
          WriteDelta(status, delta);
        }
        timestamp := ts;
      }
    }

    /** rsfu/src/twcc/twcc.rs:217-278 of the loop body: one status more. The packer's `out` is the ghost record of
        the chunks in the payload. */
    method PackStatus(p: Packer, status: Status, ghost head: seq<u8>) returns (q: Packer)
      requires chunk == 0 && Pending(p) && AllFull(p.out) && status != WithoutDelta
      requires payload == head + ChunkBytes(p.out)
      modifies this`payload, this`chunk, this`len
      ensures q == Step(p, status) && AllFull(q.out)
      ensures payload == head + ChunkBytes(q.out) && chunk == 0
    {
      hide Flatten, Word, ChunkBytes, FlushMixed;
      StepKeeps(p, status);
      EndRunKeeps(p, status);
      AppendKeeps(EndRun(p, status), status);
      var same, lastStatus, maxStatus, statusList := p.same, p.last, p.max, p.list;
      var out := p.out;
      if same && status != lastStatus && lastStatus != WithoutDelta {
        if |statusList| > 7 {
          out := WriteRun(out, lastStatus, |statusList|, head);
          statusList := [];
          maxStatus := NotReceived;
          same := true;
        } else {
          same := false;
        }
      }
      assert Packer(statusList, same, lastStatus, maxStatus, out) == EndRun(p, status);
      statusList := statusList + [status];
      if Code(status) > Code(maxStatus) { maxStatus := status; }
      lastStatus := status;
      q := Packer(statusList, same, lastStatus, maxStatus, out);
      q := FlushPending(q, head);
    }

    /** rsfu/src/twcc/twcc.rs:240-278: a mixed list that has grown long enough is moved into a vector chunk. */
    method FlushPending(p: Packer, ghost head: seq<u8>) returns (q: Packer)
      requires chunk == 0 && Scanned(p) && AllFull(p.out)
      requires payload == head + ChunkBytes(p.out)
      modifies this`payload, this`chunk, this`len
      ensures q == FlushMixed(p)
      ensures AllFull(q.out) && payload == head + ChunkBytes(q.out) && chunk == 0
    {
      hide Word, ChunkBytes, Flatten;
      q := p;
      if !p.same && p.max == LargeDelta && |p.list| > 6 {
        var list := p.list[7..];
        var out := WriteVector(p.out, Two, p.list[..7], head);
        q := RescanList(list, out);
        RescanKeeps(list, out);
      } else if !p.same && |p.list| > 13 {
        var out := WriteVector(p.out, One, p.list[..14], head);
        q := Packer(p.list[14..], true, WithoutDelta, NotReceived, out);
      }
    }

    /** rsfu/src/twcc/twcc.rs:250-267: the list variables are recomputed over what is left. */
    method RescanList(list: seq<Status>, out: seq<Chunk>) returns (q: Packer)
      ensures q == Rescan(list, out)
    {
      var lastStatus, maxStatus, same := WithoutDelta, NotReceived, true;
      var i := 0;
      assert list[..i] == [];
      RescanNone(out);
      hide Rescan;
      while i < |list|
        invariant 0 <= i <= |list|
        invariant Packer(list[..i], same, lastStatus, maxStatus, out) == Rescan(list[..i], out)
      {
        RescanStep(list, i, out);
        var status := list[i];
        if Code(status) > Code(maxStatus) { maxStatus := status; }
        if same && lastStatus != WithoutDelta && status != lastStatus { same := false; }
        lastStatus := status;
        i := i + 1;
      }
      assert list[..i] == list;
      q := Packer(list, same, lastStatus, maxStatus, out);
    }

    /** rsfu/src/twcc/twcc.rs:280-296: what is still pending goes into one last chunk. */
    method PackRest(p: Packer, ghost head: seq<u8>)
      requires chunk == 0 && Pending(p) && AllFull(p.out)
      requires payload == head + ChunkBytes(p.out)
      modifies this`payload, this`chunk, this`len
      ensures AllWritable(Finish(p))
      ensures payload == head + ChunkBytes(Finish(p)) && chunk == 0
    {
      if |p.list| > 0 {
        var out;
        if p.same {
          out := WriteRun(p.out, p.last, |p.list|, head);
        } else if p.max == LargeDelta {
          out := WriteVector(p.out, Two, p.list, head);
        } else {
          out := WriteVector(p.out, One, p.list, head);
        }
      }
    }

    method WriteHeader(baseSn: u16, packetCount: u16, refTime: u32)
      modifies this`payload
      ensures payload == old(payload) + HeaderBytes(sSsrc, mSsrc, baseSn, packetCount, refTime, pktCtn)
    {
      OrCount(refTime % 0x100_0000, pktCtn);
      payload := payload + Be32(sSsrc);
      payload := payload + Be32(mSsrc);
      payload := payload + Be16(baseSn);
      payload := payload + Be16(packetCount);
      payload := payload + Be32(BitOr(Shl(refTime % 0x100_0000, 8), pktCtn));
    }

    method WriteRunLengthChunk(symbol: Status, runLength: u16)
      requires symbol != WithoutDelta
      modifies this`payload
      ensures payload == old(payload) + Be16(Word(RunLength(symbol, runLength)))
    {
      hide BitOr;
      RunWordFits(symbol, runLength);
      payload := payload + Be16(BitOr(0x2000 * Code(symbol), runLength));
    }

    /** A run-length chunk, with the record of the chunks written. */
    method WriteRun(out: seq<Chunk>, symbol: Status, length: nat, ghost head: seq<u8>) returns (out': seq<Chunk>)
      requires symbol != WithoutDelta && AllWritable(out) && payload == head + ChunkBytes(out)
      modifies this`payload
      ensures out' == out + [RunLength(symbol, length)] && AllWritable(out')
      ensures payload == head + ChunkBytes(out')
    {
      hide Word, Writable, AllWritable;
      RunLengthTruncated(symbol, length);
      WriteRunLengthChunk(symbol, length % 0x1_0000);
      ChunkBytesStep(out, RunLength(symbol, length));
      out' := out + [RunLength(symbol, length)];
    }

    /** A chunk that holds the first i symbols of a list holds one more of them. */
    method CreateStatusSymbolChunk(size: SymbolSize, symbol: Status, i: nat, ghost symbols: seq<Status>)
      requires i == |symbols| < Capacity(size) && Narrow(size, symbols + [symbol]) && chunk == Register(size, symbols)
      modifies this`chunk
      ensures chunk == Register(size, symbols + [symbol])
    {
      hide SetNBits, Register;
      RegisterStep(size, symbols, symbol);
      WidthIsProduct(size, i);
      RegisterFits(size, symbols + [symbol]);
      var numOfBits := Bits(size);
      chunk := SetNBits(chunk, numOfBits, numOfBits * i + 2, Code(symbol));
    }

    method WriteStatusSymbolChunk(size: SymbolSize, ghost symbols: seq<Status>)
      requires |symbols| <= Capacity(size) && Narrow(size, symbols) && chunk == Register(size, symbols)
      modifies this`payload, this`chunk, this`len
      ensures payload == old(payload) + Be16(Word(Vector(size, symbols))) && chunk == 0
      ensures len == (old(len) + 2) % 0x1_0000
    {
      FlagBits(size, symbols);
      chunk := SetNBits(chunk, 1, 0, 1);
      RegisterFits(size, symbols);
      chunk := SetNBits(chunk, 1, 1, Bits(size) - 1);
      payload := payload + Be16(chunk);
      chunk := 0;
      len := (len + 2) % 0x1_0000;
    }

    /** A vector chunk, with the record of the chunks written. */
    method WriteVector(out: seq<Chunk>, size: SymbolSize, symbols: seq<Status>, ghost head: seq<u8>) returns (out': seq<Chunk>)
      requires chunk == 0 && |symbols| <= Capacity(size) && Narrow(size, symbols)
      requires AllWritable(out) && payload == head + ChunkBytes(out)
      modifies this`payload, this`chunk, this`len
      ensures out' == out + [Vector(size, symbols)] && AllWritable(out')
      ensures payload == head + ChunkBytes(out') && chunk == 0
    {
      hide BitOr, Value, Low, Shl;
      WriteSymbols(size, symbols);
      ChunkBytesStep(out, Vector(size, symbols));
      out' := out + [Vector(size, symbols)];
    }

    /** rsfu/src/twcc/twcc.rs, lines 244-248, 269-274, 284-288 and 290-294: the symbols are taken from the front
        of the list one by one. */
    method WriteSymbols(size: SymbolSize, symbols: seq<Status>)
      requires chunk == 0 && |symbols| <= Capacity(size) && Narrow(size, symbols)
      modifies this`payload, this`chunk, this`len
      ensures payload == old(payload) + Be16(Word(Vector(size, symbols))) && chunk == 0
    {
      hide BitOr, Value, Low, Word, Shl;
      var i := 0;
      EmptyRegister(size);
      while i < |symbols|
        invariant 0 <= i <= |symbols|
        invariant chunk == Register(size, symbols[..i]) && payload == old(payload)
      {
        assert symbols[..i + 1] == symbols[..i] + [symbols[i]];
        CreateStatusSymbolChunk(size, symbols[i], i, symbols[..i]);
        i := i + 1;
      }
      assert symbols[..i] == symbols;
      WriteStatusSymbolChunk(size, symbols);
    }

    method WriteDelta(deltaType: Status, delta: u16)
      requires deltaType == SmallDelta ==> delta < 0x100
      modifies this`deltas, this`deltaLen
      ensures deltas == old(deltas) + if deltaType == SmallDelta then [delta] else Be16(delta)
      ensures deltaLen == old(deltaLen) + if deltaType == SmallDelta then 1 else 2
    {
      if deltaType == SmallDelta {
        deltas := deltas + [delta];
        deltaLen := deltaLen + 1;
        return;
      }
      deltas := deltas + Be16(delta);
      deltaLen := deltaLen + 2;
    }
  }

  lemma {:induction false} EmptyReport()
    ensures Statuses([]) == [] && Run([]) == START && DeltaBytes([]) == [] && ChunkBytes([]) == []
    ensures Clock([]).None? && FirstTime([]).None?
  {}

  lemma {:induction false} EmptyRegister(size: SymbolSize)
    ensures Register(size, []) == 0
  {
    ShlZero(0, 14);
  }

  // ---------------------------------------------------------------- the report loop

  /** The header once the first received packet has been reached. */
  ghost function HeaderSoFar(pkts: seq<Arrival>, k: nat, senderSsrc: u32, mediaSsrc: u32, feedbackCount: u8): seq<u8>
    requires k <= |pkts|
  {
    if FirstTime(pkts[..k]).None? then [] else HeaderFor(pkts, senderSsrc, mediaSsrc, feedbackCount)
  }

  lemma {:induction false} HeaderComplete(pkts: seq<Arrival>, senderSsrc: u32, mediaSsrc: u32, feedbackCount: u8)
    ensures HeaderSoFar(pkts, |pkts|, senderSsrc, mediaSsrc, feedbackCount) == HeaderFor(pkts, senderSsrc, mediaSsrc, feedbackCount)
  {
    assert pkts[..|pkts|] == pkts;
  }

  lemma {:induction false} FirstTimePrefix(pkts: seq<Arrival>, k: nat)
    requires k <= |pkts| && FirstTime(pkts[..k]).Some?
    ensures FirstTime(pkts) == FirstTime(pkts[..k])
  {
    if k < |pkts| {
      assert pkts[..|pkts| - 1][..k] == pkts[..k];
      FirstTimePrefix(pkts[..|pkts| - 1], k);
    } else {
      assert pkts[..k] == pkts;
    }
  }

  lemma {:induction false} PrefixStep(pkts: seq<Arrival>, k: nat)
    requires k < |pkts|
    ensures var a, b, ts := pkts[..k], pkts[..k + 1], pkts[k].timestamp;
            && Run(Statuses(b)) == Step(Run(Statuses(a)), StatusOf(Clock(a), ts))
            && DeltaBytes(b) == DeltaBytes(a) + DeltaBytesOf(Clock(a), ts)
            && Clock(b) == (if ts != 0 then Some(ts) else Clock(a))
            && (FirstTime(a).Some? ==> FirstTime(b) == FirstTime(a))
            && (FirstTime(a).None? ==> FirstTime(b) == Clock(b))
            && (FirstTime(b).Some? ==> FirstTime(b) == FirstTime(pkts))
  {
    var a, b := pkts[..k], pkts[..k + 1];
    assert b[..k] == a && b[k] == pkts[k];
    assert Statuses(b)[..k] == Statuses(a);
    if FirstTime(b).Some? { FirstTimePrefix(pkts, k + 1); }
  }

  lemma {:induction false} RunLengthTruncated(s: Status, n: nat)
    requires s != WithoutDelta
    ensures Writable(RunLength(s, n)) && Writable(RunLength(s, n % 0x1_0000))
    ensures Word(RunLength(s, n % 0x1_0000)) == Word(RunLength(s, n))
  {
    hide BitOr;
  }

  lemma {:induction false} NothingExpanded(last: u32)
    ensures Expand(last, []) == Expansion(last, [])
  {
  }

  lemma {:induction false} ExpandNext(last: u32, infos: seq<Arrival>, i: nat)
    requires i < |infos|
    ensures Expand(last, infos[..i + 1]) == Accept(Expand(last, infos[..i]), infos[i])
  {
    assert infos[..i + 1][..i] == infos[..i];
  }

  lemma {:induction false} RescanStep(list: seq<Status>, i: nat, out: seq<Chunk>)
    requires i < |list|
    ensures var p, s := Rescan(list[..i], out), list[i];
            var q := Rescan(list[..i + 1], out);
            && q.max == Larger(s, p.max) && q.last == s && q.out == p.out && (p.list == list[..i] ==> q.list == list[..i + 1])
            && q.same == (p.same && !(p.last != WithoutDelta && s != p.last))
  {
    assert list[..i + 1][..i] == list[..i];
    assert list[..i] + [list[i]] == list[..i + 1];
  }

  /** Before anything has been received all statuses are equal, so no chunk has been written either. */
  lemma {:induction false} NothingWritten(pkts: seq<Arrival>)
    requires Clock(pkts).None?
    ensures Run(Statuses(pkts)).out == []
  {
    AllLost(pkts);
    UniformState(NotReceived, |pkts|);
  }

  lemma {:induction false} AllLost(pkts: seq<Arrival>)
    requires Clock(pkts).None?
    ensures Statuses(pkts) == Repeat(NotReceived, |pkts|)
  {
    if pkts != [] { AllLost(pkts[..|pkts| - 1]); }
  }
}
