/** How a stream of packet statuses is cut into status chunks, and why a receiver gets it back. */
module TwccPacker {
  import opened Numbers
  import opened TwccWire

  /** The four variables of the packetizing loop together with the chunks written so far. */
  datatype Packer = Packer(list: seq<Status>, same: bool, last: Status, max: Status, out: seq<Chunk>)

  const START := Packer([], true, WithoutDelta, NotReceived, [])

  /** A status that differs from a pending uniform run ends the run: as its own chunk when it is
      longer than 7, otherwise by turning the pending list into a mixed one. */
  function EndRun(p: Packer, s: Status): Packer {
    if p.same && s != p.last && p.last != WithoutDelta then
      if |p.list| > 7 then
        p.(list := [], max := NotReceived, same := true, out := p.out + [RunLength(p.last, |p.list|)])
      else p.(same := false)
    else p
  }

  function Larger(a: Status, b: Status): Status { if Code(a) > Code(b) then a else b }

  function Append(p: Packer, s: Status): Packer {
    p.(list := p.list + [s], max := Larger(s, p.max), last := s)
  }

  /** `same`, `last` and `max` recomputed over what a two-bit chunk leaves pending. */
  function Rescan(list: seq<Status>, out: seq<Chunk>): Packer {
    if list == [] then START.(out := out)
    else
      var p := Rescan(list[..|list| - 1], out);
      var s := list[|list| - 1];
      Append(p.(same := p.same && !(p.last != WithoutDelta && s != p.last)), s)
  }

  function FlushMixed(p: Packer): Packer {
    if !p.same && p.max == LargeDelta && |p.list| > 6 then
      Rescan(p.list[7..], p.out + [Vector(Two, p.list[..7])])
    else if !p.same && |p.list| > 13 then
      Packer(p.list[14..], true, WithoutDelta, NotReceived, p.out + [Vector(One, p.list[..14])])
    else p
  }

  function Step(p: Packer, s: Status): Packer { FlushMixed(Append(EndRun(p, s), s)) }

  function Run(ss: seq<Status>): Packer {
    if ss == [] then START else Step(Run(ss[..|ss| - 1]), ss[|ss| - 1])
  }

  /** The chunk that the rest of the list goes into when the stream ends. */
  function Finish(p: Packer): seq<Chunk> {
    if p.list == [] then p.out else p.out + [LastChunk(p)]
  }

  function LastChunk(p: Packer): Chunk {
    if p.same then RunLength(p.last, |p.list|) else if p.max == LargeDelta then Vector(Two, p.list) else Vector(One, p.list)
  }

  function Packetize(ss: seq<Status>): seq<Chunk> { Finish(Run(ss)) }

  // ---------------------------------------------------------------- the loop invariant

  /** The statuses the packetizer is given: a packet is lost, or received with a delta. */
  ghost predicate Reportable(ss: seq<Status>) {
    forall i :: 0 <= i < |ss| ==> ss[i] != WithoutDelta
  }

  ghost predicate IsMax(max: Status, list: seq<Status>) {
    && (forall i :: 0 <= i < |list| ==> Code(list[i]) <= Code(max))
    && (max == NotReceived || max in list)
  }

  /** What the list variables know about each other, before a full mixed list is flushed. */
  ghost predicate Scanned(p: Packer) {
    && Reportable(p.list)
    && IsMax(p.max, p.list)
    && (if p.list == [] then p.last == WithoutDelta && p.same else p.last == p.list[|p.list| - 1])
    && (p.same ==> forall i :: 0 <= i < |p.list| ==> p.list[i] == p.last)
  }

  ghost predicate Pending(p: Packer) {
    && Scanned(p)
    && (!p.same ==> |p.list| <= 13)
    && (!p.same && p.max == LargeDelta ==> |p.list| <= 7)
  }

  /** A chunk written before the stream ends: its vectors are full. */
  ghost predicate Full(c: Chunk) {
    Writable(c) && match c
    case RunLength(_, n) => n > 7
    case Vector(size, ss) => |ss| == Capacity(size)
  }

  ghost predicate AllFull(cs: seq<Chunk>) {
    forall i :: 0 <= i < |cs| ==> Full(cs[i])
  }

  lemma {:induction false} EndRunKeeps(p: Packer, s: Status)
    requires Pending(p) && AllFull(p.out) && s != WithoutDelta
    ensures var q := EndRun(p, s);
            && AllFull(q.out)
            && Flatten(q.out) + q.list == Flatten(p.out) + p.list
            && Pending(p.(list := q.list, max := q.max, last := if q.list == [] then WithoutDelta else q.last))
            && (!q.same ==> q.list != [] && |q.list| <= 13 && (q.max == LargeDelta ==> |q.list| <= 7))
            && (q.same ==> forall i :: 0 <= i < |q.list| ==> q.list[i] == s)
            && (q.list != [] ==> q.last == p.last && q.list == p.list && q.max == p.max)
  {
  }

  lemma {:induction false} AppendKeeps(q: Packer, s: Status)
    requires s != WithoutDelta && Reportable(q.list) && IsMax(q.max, q.list)
    requires q.same ==> forall i :: 0 <= i < |q.list| ==> q.list[i] == s
    ensures Scanned(Append(q, s))
  {
  }

  lemma {:induction false} RescanKeeps(list: seq<Status>, out: seq<Chunk>)
    requires Reportable(list)
    ensures Scanned(Rescan(list, out)) && Rescan(list, out).list == list && Rescan(list, out).out == out
  {
    if list != [] {
      var init, s := list[..|list| - 1], list[|list| - 1];
      RescanKeeps(init, out);
      assert init + [s] == list;
      var p := Rescan(init, out);
      hide Rescan, IsMax;
      AppendKeeps(p.(same := p.same && !(p.last != WithoutDelta && s != p.last)), s);
    }
  }

  lemma {:induction false} FlushMixedKeeps(p: Packer)
    requires Scanned(p) && AllFull(p.out)
    requires !p.same ==> |p.list| <= 14
    ensures var q := FlushMixed(p);
            && Pending(q) && AllFull(q.out)
            && Flatten(q.out) + q.list == Flatten(p.out) + p.list
  {
    if !p.same && p.max == LargeDelta && |p.list| > 6 {
      MovesFront(p.out, p.list, Two);
      RescanKeeps(p.list[7..], p.out + [Vector(Two, p.list[..7])]);
    } else if !p.same && |p.list| > 13 {
      MovesFront(p.out, p.list, One);
    }
  }

  lemma {:induction false} MovesFront(out: seq<Chunk>, list: seq<Status>, size: SymbolSize)
    requires |list| >= Capacity(size) && AllFull(out) && Narrow(size, list)
    ensures var c := Vector(size, list[..Capacity(size)]);
            && AllFull(out + [c])
            && Flatten(out + [c]) + list[Capacity(size)..] == Flatten(out) + list
  {
    hide Flatten;
    var k := Capacity(size);
    var c := Vector(size, list[..k]);
    assert Full(c);
    FlattenStep(out, c);
    assert (Flatten(out) + list[..k]) + list[k..] == Flatten(out) + list;
  }

  lemma {:induction false} StepKeeps(p: Packer, s: Status)
    requires Pending(p) && AllFull(p.out) && s != WithoutDelta
    ensures var q := Step(p, s);
            && Pending(q) && AllFull(q.out)
            && Flatten(q.out) + q.list == (Flatten(p.out) + p.list) + [s]
  {
    hide EndRun, FlushMixed, Flatten, AllFull, IsMax;
    EndRunKeeps(p, s);
    AppendKeeps(EndRun(p, s), s);
    var q := Append(EndRun(p, s), s);
    FlushMixedKeeps(q);
    assert Flatten(q.out) + q.list == (Flatten(q.out) + EndRun(p, s).list) + [s];
  }

  /** Nothing is lost or reordered between the statuses seen, the chunks written and the pending list. */
  lemma {:induction false} RunKeeps(ss: seq<Status>)
    requires Reportable(ss)
    ensures var p := Run(ss); Pending(p) && AllFull(p.out) && Flatten(p.out) + p.list == ss
  {
    if ss != [] {
      var init, s := ss[..|ss| - 1], ss[|ss| - 1];
      assert init + [s] == ss;
      RunKeeps(init);
      StepKeeps(Run(init), s);
    }
  }

  /** All chunks but the last are full, and together they stand for exactly the statuses given. */
  lemma {:induction false} PacketizeCovers(ss: seq<Status>)
    requires Reportable(ss)
    ensures var cs := Packetize(ss);
            && AllWritable(cs)
            && Flatten(cs) == ss
            && forall i :: 0 <= i < |cs| - 1 ==> Full(cs[i])
  {
    hide Run, Flatten, AllWritable;
    RunKeeps(ss);
    var p := Run(ss);
    if p.list == [] {
      assert Flatten(p.out) + p.list == Flatten(p.out);
      Writables(p.out);
    } else {
      FinishKeeps(p);
    }
  }

  lemma {:induction false} Writables(cs: seq<Chunk>)
    requires AllFull(cs)
    ensures AllWritable(cs)
  {
  }

  lemma {:induction false} FinishKeeps(p: Packer)
    requires Pending(p) && AllFull(p.out) && p.list != []
    ensures AllWritable(Finish(p)) && Flatten(Finish(p)) == Flatten(p.out) + p.list
    ensures |Finish(p)| == |p.out| + 1 && Finish(p)[..|p.out|] == p.out
  {
  }

  // ---------------------------------------------------------------- decoding

  ghost predicate RunsFit(cs: seq<Chunk>) {
    forall i :: 0 <= i < |cs| && cs[i].RunLength? ==> cs[i].length < 0x2000
  }

  /** What a receiver that knows the packet count makes of the chunk bytes. */
  function Received(bytes: seq<u8>, count: nat): seq<Status> {
    var all := DecodeChunkBytes(bytes);
    if |all| < count then all else all[..count]
  }

  /** Full chunks with short runs decode to exactly their symbols. */
  lemma {:induction false} DecodeFull(cs: seq<Chunk>)
    requires AllFull(cs) && RunsFit(cs)
    ensures DecodeChunkBytes(ChunkBytes(cs)) == Flatten(cs)
  {
    if cs != [] {
      var init, c := cs[..|cs| - 1], cs[|cs| - 1];
      assert init + [c] == cs;
      assert AllWritable(init) && Writable(c);
      DecodeFull(init);
      DecodeAppend(init, c);
    }
  }

  /** A receiver never gets more from a chunk than it stands for, plus the padding of a last vector,
      and gets at least 8192 less once some run is too long. */
  lemma {:induction false} DecodeLength(cs: seq<Chunk>)
    requires AllWritable(cs) && forall i :: 0 <= i < |cs| - 1 ==> Full(cs[i])
    ensures |DecodeChunkBytes(ChunkBytes(cs))| <= |Flatten(cs)| + 14
    ensures AllFull(cs) ==> |DecodeChunkBytes(ChunkBytes(cs))| <= |Flatten(cs)|
    ensures !RunsFit(cs) ==> |DecodeChunkBytes(ChunkBytes(cs))| + 0x2000 <= |Flatten(cs)| + 14
    ensures !RunsFit(cs) && AllFull(cs) ==> |DecodeChunkBytes(ChunkBytes(cs))| + 0x2000 <= |Flatten(cs)|
  {
    if cs != [] {
      var init, c := cs[..|cs| - 1], cs[|cs| - 1];
      hide DecodeChunkBytes, ChunkBytes, Flatten, AllFull, RunsFit, AllWritable, Full, Writable, Symbols;
      assert init + [c] == cs;
      LastFull(init, c);
      DecodeLength(init);
      FlattenStep(init, c);
      DecodeLengthStep(init, c);
    } else {
      NoChunks();
    }
  }

  lemma {:induction false} LastFull(cs: seq<Chunk>, c: Chunk)
    requires AllWritable(cs + [c]) && forall i :: 0 <= i < |cs| ==> Full((cs + [c])[i])
    ensures AllFull(cs) && AllWritable(cs) && Writable(c)
    ensures AllFull(cs + [c]) <==> Full(c)
    ensures RunsFit(cs + [c]) <==> RunsFit(cs) && (c.RunLength? ==> c.length < 0x2000)
  {
    hide Full, Writable;
    var all := cs + [c];
    assert all[|cs|] == c;
    assert forall i :: 0 <= i < |cs| ==> all[i] == cs[i];
  }

  lemma {:induction false} DecodeLengthStep(cs: seq<Chunk>, c: Chunk)
    requires AllWritable(cs) && Writable(c)
    ensures AllWritable(cs + [c])
    ensures var n := |DecodeChunkBytes(ChunkBytes(cs + [c]))| - |DecodeChunkBytes(ChunkBytes(cs))|;
            && n <= |Symbols(c)| + 14 && (Full(c) ==> n <= |Symbols(c)|)
            && (c.RunLength? ==> n <= |Symbols(c)|)
            && (c.RunLength? && c.length >= 0x2000 ==> n + 0x2000 <= |Symbols(c)|)
  {
    hide DecodeChunkBytes, ChunkBytes;
    if c.RunLength? && c.length >= 0x2000 {
      DecodeAppendLong(cs, c.symbol, c.length);
    } else {
      DecodeAppend(cs, c);
    }
  }

  lemma {:induction false} NoChunks()
    ensures AllWritable([]) && RunsFit([]) && DecodeChunkBytes(ChunkBytes([])) == [] && Flatten([]) == []
  {
  }

  /** The chunks read as the statuses they stand for exactly when no run chunk holds 8192 or more. */
  lemma {:induction false} ChunksReadIff(ss: seq<Status>)
    requires Reportable(ss)
    ensures AllWritable(Packetize(ss))
    ensures Received(ChunkBytes(Packetize(ss)), |ss|) == ss <==> RunsFit(Packetize(ss))
  {
    hide Packetize, DecodeChunkBytes, ChunkBytes, Flatten, Writable;
    PacketizeCovers(ss);
    var cs := Packetize(ss);
    if cs == [] {
      NoChunks();
    } else if RunsFit(cs) {
      var init, c := cs[..|cs| - 1], cs[|cs| - 1];
      assert init + [c] == cs;
      DecodeFull(init);
      DecodeAppend(init, c);
      FlattenStep(init, c);
      var all := DecodeChunkBytes(ChunkBytes(cs));
      assert all == Flatten(init) + Padded(c);
      assert all[..|ss|] == ss;
    } else {
      DecodeLength(cs);
    }
  }
}
