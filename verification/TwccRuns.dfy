/** Which status streams survive the 13-bit length of a run chunk: a run of equal statuses first fills up
    the mixed list that is pending when it begins, and only the rest becomes a run chunk. */
module TwccRuns {
  import opened TwccWire
  import opened TwccPacker

  /** How many of the statuses s that come next go into vector chunks together with what is pending. */
  function Absorbed(p: Packer, s: Status): nat {
    var q := EndRun(p, s);
    if q.same then 0 else Room(|q.list|, Larger(s, q.max))
  }

  /** What a mixed list of n <= 14 statuses lacks to a full vector of 14, or of one or two of 7. */
  function Room(n: nat, max: Status): nat {
    if n == 0 || n > 14 then 0 else if max == LargeDelta && n <= 7 then 7 - n else 14 - n
  }

  /** The pending list is a run of r times s. */
  ghost predicate Counting(p: Packer, s: Status, r: nat) {
    p.same && p.list == Repeat(s, r) && p.last == if r == 0 then WithoutDelta else s
  }

  /** No run of s is pending. */
  ghost predicate NoRunOf(p: Packer, s: Status) { p.same && p.list != [] ==> p.last != s }

  // ---------------------------------------------------------------- one status

  lemma {:induction false} CountStep(p: Packer, s: Status, r: nat)
    requires Counting(p, s, r) && s != WithoutDelta
    ensures Counting(Step(p, s), s, r + 1) && Step(p, s).out == p.out
  {
  }

  lemma {:induction false} RescanOne(s: Status, out: seq<Chunk>)
    requires s != WithoutDelta
    ensures Counting(Rescan([s], out), s, 1)
  {
    assert [s][..0] == [];
  }

  /** While something is absorbed, one status less is absorbed by what follows. */
  lemma {:induction false} AbsorbStep(p: Packer, s: Status)
    requires Pending(p) && AllFull(p.out) && s != WithoutDelta && Absorbed(p, s) > 0
    ensures Absorbed(Step(p, s), s) == Absorbed(p, s) - 1 && NoRunOf(Step(p, s), s)
  {
    hide Room;
    EndRunKeeps(p, s);
    AppendKeeps(EndRun(p, s), s);
    RoomStep(|EndRun(p, s).list|, Larger(s, EndRun(p, s).max));
    var q := Append(EndRun(p, s), s);
    if q.max == LargeDelta && |q.list| > 8 {
      assert q.list[7] == p.list[7] != LargeDelta;
    }
    FlushAbsorbs(q, s);
  }

  lemma {:induction false} RoomStep(n: nat, max: Status)
    requires Room(n, max) > 0
    ensures Room(n + 1, max) == Room(n, max) - 1
    ensures n < 14 && max == LargeDelta ==> n != 7 && n != 0
  {
  }

  lemma {:induction false} FlushAbsorbs(q: Packer, s: Status)
    requires Scanned(q) && !q.same && q.last == s && q.list != [] && |q.list| <= 14
    requires q.max == LargeDelta ==> |q.list| != 8 && (|q.list| > 8 ==> s == LargeDelta != q.list[7])
    ensures Absorbed(FlushMixed(q), s) == Room(|q.list|, q.max) && NoRunOf(FlushMixed(q), s)
  {
    hide Rescan, IsMax, Absorbed, NoRunOf;
    if q.max == LargeDelta && |q.list| > 6 {
      var rest, out := q.list[7..], q.out + [Vector(Two, q.list[..7])];
      RescanKeeps(rest, out);
      if rest == [] {
        RescanNone(out);
        NonePending(Rescan(rest, out), s);
      } else {
        assert rest[0] == q.list[7] && rest[|rest| - 1] == q.list[|q.list| - 1] == s;
        MixedLarge(Rescan(rest, out), s);
      }
    } else if |q.list| > 13 {
      NonePending(FlushMixed(q), s);
    } else {
      StillMixed(q, s);
    }
  }

  lemma {:induction false} NonePending(q: Packer, s: Status)
    requires q.same && q.list == [] && q.last == WithoutDelta
    ensures Absorbed(q, s) == 0 == Room(7, LargeDelta) && NoRunOf(q, s)
    ensures forall max :: max != LargeDelta ==> Room(14, max) == 0
  {
  }

  lemma {:induction false} StillMixed(q: Packer, s: Status)
    requires Scanned(q) && !q.same && q.last == s
    ensures Absorbed(q, s) == Room(|q.list|, q.max) && NoRunOf(q, s)
  {
    assert q.list[|q.list| - 1] == s;
  }

  lemma {:induction false} RescanNone(out: seq<Chunk>)
    ensures Rescan([], out) == START.(out := out)
  {
  }

  lemma {:induction false} MixedLarge(r: Packer, s: Status)
    requires Scanned(r) && 0 < |r.list| <= 7 && r.list[0] != s == LargeDelta && r.last == s
    ensures NoRunOf(r, s) && Absorbed(r, s) == Room(|r.list| + 7, LargeDelta)
  {
    assert !r.same;
    StillMixed(r, s);
  }

  /** Once nothing is absorbed any more, the run proper begins. */
  lemma {:induction false} CountBegins(p: Packer, s: Status)
    requires Pending(p) && s != WithoutDelta && Absorbed(p, s) == 0 && NoRunOf(p, s)
    ensures Counting(Step(p, s), s, 1)
  {
    var q := Append(EndRun(p, s), s);
    if !q.same {
      assert |q.list| == 8 && q.list[7..] == [s];
      RescanOne(s, q.out + [Vector(Two, q.list[..7])]);
    }
  }

  // ---------------------------------------------------------------- whole streams

  /** n equal statuses from i on, with another status before them. */
  ghost predicate Stretch(ss: seq<Status>, i: nat, n: nat) {
    0 < n && i + n <= |ss| && (i > 0 ==> ss[i - 1] != ss[i]) && forall j :: i <= j < i + n ==> ss[j] == ss[i]
  }

  /** Every stretch, less what is absorbed at its start, is shorter than 8192. */
  ghost predicate StretchesFit(ss: seq<Status>) {
    forall i: nat, n: nat :: Stretch(ss, i, n) ==> n < 0x2000 + Absorbed(Run(ss[..i]), ss[i])
  }

  lemma {:induction false} RunStep(ss: seq<Status>, k: nat)
    requires k < |ss|
    ensures Run(ss[..k + 1]) == Step(Run(ss[..k]), ss[k])
  {
    assert ss[..k + 1][..k] == ss[..k];
  }

  lemma {:induction false} LastSeen(ss: seq<Status>, k: nat)
    requires Reportable(ss) && 0 < k <= |ss|
    ensures Pending(Run(ss[..k])) && AllFull(Run(ss[..k]).out)
    ensures Run(ss[..k]).list != [] ==> Run(ss[..k]).last == ss[k - 1]
  {
    RunKeeps(ss[..k]);
    var p := Run(ss[..k]);
    if p.list != [] {
      assert (Flatten(p.out) + p.list)[k - 1] == p.list[|p.list| - 1];
    }
  }

  /** Equal statuses from the start are all pending. */
  lemma {:induction false} UniformState(s: Status, n: nat)
    requires s != WithoutDelta
    ensures Counting(Run(Repeat(s, n)), s, n) && Run(Repeat(s, n)).out == []
  {
    if n > 0 {
      assert Repeat(s, n)[..n - 1] == Repeat(s, n - 1);
      UniformState(s, n - 1);
      CountStep(Run(Repeat(s, n - 1)), s, n - 1);
    }
  }

  /** What is pending n statuses into a stretch. */
  lemma {:induction false} StretchState(ss: seq<Status>, i: nat, n: nat)
    requires Reportable(ss) && Stretch(ss, i, n)
    ensures var a, p := Absorbed(Run(ss[..i]), ss[i]), Run(ss[..i + n]);
            if n <= a then Absorbed(p, ss[i]) == a - n && NoRunOf(p, ss[i]) else Counting(p, ss[i], n - a)
  {
    hide Run, Step, Absorbed, Counting, Pending, AllFull;
    var a, s := Absorbed(Run(ss[..i]), ss[i]), ss[i];
    var p := Run(ss[..i + n - 1]);
    RunStep(ss, i + n - 1);
    if i + n > 1 {
      LastSeen(ss, i + n - 1);
    } else {
      assert ss[..0] == [];
      RunKeeps([]);
    }
    if n > 1 { StretchState(ss, i, n - 1); }
    if n - 1 < a {
      AbsorbStep(p, s);
    } else if n - 1 == a {
      CountBegins(p, s);
    } else {
      CountStep(p, s, n - 1 - a);
    }
  }

  lemma {:induction false} StretchStart(ss: seq<Status>, k: nat) returns (i: nat)
    requires 0 < k <= |ss|
    ensures i < k && Stretch(ss, i, k - i) && ss[i] == ss[k - 1]
  {
    i := k - 1;
    if k > 1 && ss[k - 2] == ss[k - 1] { i := StretchStart(ss, k - 1); }
  }

  // ---------------------------------------------------------------- run chunks

  lemma {:induction false} RunsFitStep(out: seq<Chunk>, c: Chunk)
    ensures RunsFit(out + [c]) <==> RunsFit(out) && (c.RunLength? ==> c.length < 0x2000)
  {
    var all := out + [c];
    assert all[|out|] == c;
    assert forall i :: 0 <= i < |out| ==> all[i] == out[i];
  }

  lemma {:induction false} FlushWrites(q: Packer)
    requires Reportable(q.list)
    ensures q.out <= FlushMixed(q).out && (RunsFit(FlushMixed(q).out) <==> RunsFit(q.out))
  {
    hide RunsFit, Rescan;
    if !q.same && q.max == LargeDelta && |q.list| > 6 {
      RescanKeeps(q.list[7..], q.out + [Vector(Two, q.list[..7])]);
      RunsFitStep(q.out, Vector(Two, q.list[..7]));
    } else if !q.same && |q.list| > 13 {
      RunsFitStep(q.out, Vector(One, q.list[..14]));
    }
  }

  /** The status ends a run that becomes a chunk. */
  ghost predicate EndsRun(p: Packer, s: Status) {
    p.same && p.list != [] && s != p.last && |p.list| > 7
  }

  /** What one status can add to the chunks is the run it ends, and vectors. */
  lemma {:induction false} StepWrites(p: Packer, s: Status)
    requires Pending(p) && s != WithoutDelta
    ensures p.out <= Step(p, s).out
    ensures RunsFit(Step(p, s).out) <==> RunsFit(p.out) && (EndsRun(p, s) ==> |p.list| < 0x2000)
  {
    hide RunsFit, FlushMixed;
    if EndsRun(p, s) { RunsFitStep(p.out, RunLength(p.last, |p.list|)); }
    FlushWrites(Append(EndRun(p, s), s));
  }

  /** On streams whose stretches fit, no written run is too long, and none pending. */
  lemma {:induction false} RunsFitWhile(ss: seq<Status>, k: nat)
    requires Reportable(ss) && StretchesFit(ss) && k <= |ss|
    ensures var p := Run(ss[..k]); RunsFit(p.out) && (p.same ==> |p.list| < 0x2000)
  {
    hide Run, Step, RunsFit, Absorbed;
    if k > 0 {
      RunsFitWhile(ss, k - 1);
      LastSeen(ss, k);
      RunKeeps(ss[..k - 1]);
      RunStep(ss, k - 1);
      StepWrites(Run(ss[..k - 1]), ss[k - 1]);
      var i := StretchStart(ss, k);
      StretchState(ss, i, k - i);
    } else {
      NothingRun();
      assert ss[..0] == [];
    }
  }

  lemma {:induction false} NothingRun()
    ensures Run([]) == START && RunsFit([])
  {
  }

  /** A pending run that is too long is written in the end. */
  lemma {:induction false} LongRunWritten(ss: seq<Status>, k: nat)
    requires Reportable(ss) && k <= |ss|
    requires var p := Run(ss[..k]); !RunsFit(p.out) || (p.same && |p.list| >= 0x2000)
    ensures !RunsFit(Packetize(ss))
    decreases |ss| - k
  {
    hide Run, RunsFit;
    var p := Run(ss[..k]);
    RunKeeps(ss[..k]);
    if k == |ss| {
      assert ss[..k] == ss;
      if p.list != [] { RunsFitStep(p.out, LastChunk(p)); }
    } else {
      RunStep(ss, k);
      StepWrites(p, ss[k]);
      if RunsFit(p.out) && !EndsRun(p, ss[k]) {
        assert p.list == Repeat(ss[k], |p.list|);
        CountStep(p, ss[k], |p.list|);
      }
      LongRunWritten(ss, k + 1);
    }
  }

  /** The status stream survives encoding and decoding exactly when every stretch of equal statuses, less
      what the pending list absorbs at its start, is shorter than 8192. */
  lemma {:induction false} RoundTripIff(ss: seq<Status>)
    requires Reportable(ss)
    ensures AllWritable(Packetize(ss))
    ensures RunsFit(Packetize(ss)) <==> StretchesFit(ss)
    ensures Received(ChunkBytes(Packetize(ss)), |ss|) == ss <==> StretchesFit(ss)
  {
    hide Run, Absorbed, RunsFit, Received, ChunkBytes;
    ChunksReadIff(ss);
    if StretchesFit(ss) {
      RunsFitWhile(ss, |ss|);
      assert ss[..|ss|] == ss;
      var p := Run(ss);
      if p.list != [] { RunsFitStep(p.out, LastChunk(p)); }
    } else {
      var i: nat, n: nat :| Stretch(ss, i, n) && n >= 0x2000 + Absorbed(Run(ss[..i]), ss[i]);
      StretchState(ss, i, n);
      LongRunWritten(ss, i + n);
    }
  }

  ghost predicate ChangesSoon(ss: seq<Status>, i: nat)
    requires i + 0x2000 <= |ss|
  {
    exists j :: i < j < i + 0x2000 && ss[j] != ss[i]
  }

  /** Streams without a run of 8192, in particular all of at most 8191 packets, are reported exactly. */
  lemma {:induction false} RoundTrip(ss: seq<Status>)
    requires Reportable(ss) && forall i: nat :: i + 0x2000 <= |ss| ==> ChangesSoon(ss, i)
    ensures AllWritable(Packetize(ss)) && Received(ChunkBytes(Packetize(ss)), |ss|) == ss
  {
    hide Run, Absorbed, Received, ChunkBytes;
    forall i: nat, n: nat | Stretch(ss, i, n) ensures n < 0x2000 {
      assert n >= 0x2000 ==> !ChangesSoon(ss, i);
    }
    RoundTripIff(ss);
  }

  /** A stream of equal statuses is one run, so it is misreported from 8192 packets on. */
  lemma {:induction false} UniformRoundTripIff(s: Status, n: nat)
    requires s != WithoutDelta
    ensures AllWritable(Packetize(Repeat(s, n)))
    ensures Received(ChunkBytes(Packetize(Repeat(s, n))), n) == Repeat(s, n) <==> n < 0x2000
  {
    hide Run, Received, ChunkBytes;
    var ss := Repeat(s, n);
    RoundTripIff(ss);
    NothingRun();
    assert ss[..0] == [];
    if n >= 0x2000 {
      assert Stretch(ss, 0, n);
    }
  }

  /** A run behind one other status puts 13 of its own into the first vector, and may be 8204 long. */
  lemma {:induction false} AfterOneIff(n: nat)
    requires n > 0
    ensures var ss := [SmallDelta] + Repeat(NotReceived, n);
            AllWritable(Packetize(ss)) && (Received(ChunkBytes(Packetize(ss)), |ss|) == ss <==> n < 0x2000 + 13)
  {
    hide Run, Received, ChunkBytes;
    var ss := [SmallDelta] + Repeat(NotReceived, n);
    RoundTripIff(ss);
    NothingRun();
    assert ss[..0] == [] && ss[..1][..0] == [];
    RunStep(ss, 0);
    assert Stretch(ss, 1, n) && Stretch(ss, 0, 1);
    assert Absorbed(Run(ss[..1]), NotReceived) == 13;
  }
}
