/** Sections 3.1.1 to 3.1.4 of draft-holmer-rmcat-transport-wide-cc-extensions-01: packet status
    symbols and the two kinds of 16-bit status chunk, as they are written and as a receiver of the
    feedback reads them back. */
module TwccWire {
  import opened Numbers

  datatype Status = NotReceived | SmallDelta | LargeDelta | WithoutDelta

  function Code(s: Status): nat {
    match s
    case NotReceived => 0
    case SmallDelta => 1
    case LargeDelta => 2
    case WithoutDelta => 3
  }

  function OfCode(c: nat): Status {
    if c == 0 then NotReceived else if c == 1 then SmallDelta else if c == 2 then LargeDelta else WithoutDelta
  }

  datatype SymbolSize = One | Two

  function Bits(size: SymbolSize): nat { if size == One then 1 else 2 }

  /** The bits of n symbols: n times as many. */
  function Width(size: SymbolSize, n: nat): nat { if size == One then n else 2 * n }

  lemma {:induction false} WidthIsProduct(size: SymbolSize, n: nat)
    ensures Width(size, n) == Bits(size) * n
  {
  }

  /** 14 one-bit or 7 two-bit fields make a chunk. */
  function Capacity(size: SymbolSize): nat { if size == One then 14 else 7 }

  /** The symbols a single chunk stands for, before it is turned into bits. */
  datatype Chunk =
    | RunLength(symbol: Status, length: nat)
    | Vector(size: SymbolSize, symbols: seq<Status>)

  function Repeat(s: Status, n: nat): seq<Status> { seq(n, _ => s) }

  function Symbols(c: Chunk): seq<Status> {
    match c
    case RunLength(s, n) => Repeat(s, n)
    case Vector(_, ss) => ss
  }

  function Flatten(cs: seq<Chunk>): seq<Status> {
    if cs == [] then [] else Flatten(cs[..|cs| - 1]) + Symbols(cs[|cs| - 1])
  }

  // ---------------------------------------------------------------- writing

  function SetNBits(src: u16, size: nat, start: nat, val: u16): nat {
    if start + size > 16 then 0
    else BitOr(src, Shl(Low(val, size), 16 - size - start))
  }

  function RunWord(s: Status, n: nat): nat {
    BitOr(0x2000 * Code(s), n % 0x1_0000)
  }

  ghost predicate Narrow(size: SymbolSize, ss: seq<Status>) {
    forall i :: 0 <= i < |ss| ==> Code(ss[i]) < if size == One then 2 else 4
  }

  /** Symbols as the digits of a number, first symbol most significant. */
  function Value(size: SymbolSize, ss: seq<Status>): nat {
    if ss == [] then 0 else Shl(Value(size, ss[..|ss| - 1]), Bits(size)) + Code(ss[|ss| - 1])
  }

  /** Symbols placed from the most significant end of the 14-bit symbol list. */
  function Register(size: SymbolSize, ss: seq<Status>): nat
    requires |ss| <= Capacity(size)
  {
    Shl(Value(size, ss), 14 - Width(size, |ss|))
  }

  /** The chunk word: type bit 1, symbol-size bit, then the symbol list. */
  function VectorWord(size: SymbolSize, ss: seq<Status>): nat
    requires |ss| <= Capacity(size)
  {
    (if size == One then 0x8000 else 0xC000) + Register(size, ss)
  }

  /** Chunks that fit their word: no more symbols than fields, and no symbol wider than its field. */
  ghost predicate Writable(c: Chunk) {
    match c
    case RunLength(s, n) => s != WithoutDelta
    case Vector(size, ss) => |ss| <= Capacity(size) && Narrow(size, ss)
  }

  ghost predicate AllWritable(cs: seq<Chunk>) {
    forall i :: 0 <= i < |cs| ==> Writable(cs[i])
  }

  ghost function Word(c: Chunk): (w: u16)
    requires Writable(c)
  {
    match c
    case RunLength(s, n) => RunWordFits(s, n); RunWord(s, n)
    case Vector(size, ss) => RegisterFits(size, ss); VectorWord(size, ss)
  }

  ghost function ChunkBytes(cs: seq<Chunk>): seq<u8>
    requires AllWritable(cs)
  {
    if cs == [] then [] else ChunkBytes(cs[..|cs| - 1]) + Be16(Word(cs[|cs| - 1]))
  }

  // ---------------------------------------------------------------- reading

  /** The last `count` fields of a number, most significant first. */
  function Fields(w: nat, size: SymbolSize, count: nat): (ss: seq<Status>)
    ensures |ss| == count
  {
    if count == 0 then []
    else if size == One then Fields(w / 2, size, count - 1) + [OfCode(w % 2)]
    else Fields(w / 4, size, count - 1) + [OfCode(w % 4)]
  }

  /** Section 3.1.3 (run length) and 3.1.4 (status vector): a receiver reads one word. */
  function DecodeWord(w: u16): seq<Status> {
    if w < 0x8000 then Repeat(OfCode(w / 0x2000), w % 0x2000)
    else if w < 0xC000 then Fields(w, One, 14)
    else Fields(w, Two, 7)
  }

  function DecodeChunkBytes(bytes: seq<u8>): seq<Status> {
    if |bytes| < 2 then []
    else DecodeChunkBytes(bytes[..|bytes| - 2]) + DecodeWord(ReadBe16(bytes, |bytes| - 2))
  }

  /** A vector chunk always carries 14 or 7 fields; the missing ones read as "not received". */
  function Padded(c: Chunk): seq<Status> {
    match c
    case RunLength(s, n) => Repeat(s, n)
    case Vector(size, ss) => if |ss| < Capacity(size) then ss + Repeat(NotReceived, Capacity(size) - |ss|) else ss
  }

  // ---------------------------------------------------------------- one chunk

  lemma {:induction false} Shl2(x: nat)
    ensures Shl(x, 1) == 2 * x && Shl(x, 2) == 4 * x
  {
  }

  /** What or-ing a run length below a symbol shifted by k = 13 does to the word. */
  lemma {:induction false} RunWordBits(c: nat, n: nat, k: nat)
    requires forall x: nat :: Shl(x, k) == 0x2000 * x
    ensures BitOr(Shl(c, k), n) % 0x2000 == n % 0x2000
  {
    var t, u, low := OrLow(c, n, k);
    SameRemainder(BitOr(Shl(c, k), n), n, t, u, low, Shl(t, k), Shl(u, k), Shl(1, k));
  }

  lemma {:induction false} SameRemainder(x: nat, y: nat, t: nat, u: nat, low: nat, tk: nat, uk: nat, one: nat)
    requires one == 0x2000 && tk == 0x2000 * t && uk == 0x2000 * u
    requires x == tk + low && y == uk + low && low < one
    ensures x % 0x2000 == y % 0x2000
  {}

  lemma {:induction false} RunWordBound(c: nat, n: nat, k: nat, bound: nat)
    requires Shl(1, k) == bound && 0x2000 * c < bound && n < bound
    ensures BitOr(0x2000 * c, n) < bound
  {
    OrBound(0x2000 * c, n, k);
  }

  lemma {:induction false} RunWordFits(s: Status, n: nat)
    ensures RunWord(s, n) < 0x1_0000
  {
    Shl13(1);
    RunWordBound(Code(s), n % 0x1_0000, 16, 0x1_0000);
  }

  lemma {:induction false} ValueBound(size: SymbolSize, ss: seq<Status>)
    requires Narrow(size, ss)
    ensures Value(size, ss) < Shl(1, Width(size, |ss|))
  {
    if ss != [] {
      var init := ss[..|ss| - 1];
      ValueBound(size, init);
      assert Width(size, |ss|) == Width(size, |init|) + Bits(size);
      ShlTwice(1, Width(size, |init|), Bits(size));
      Shl2(Value(size, init));
      Shl2(Shl(1, Width(size, |init|)));
    }
  }

  lemma {:induction false} RegisterFits(size: SymbolSize, ss: seq<Status>)
    requires |ss| <= Capacity(size) && Narrow(size, ss)
    ensures Register(size, ss) < 0x4000
  {
    Shl13(1);
    ValueBound(size, ss);
    var n := Width(size, |ss|);
    ShlTwice(1, n, 14 - n);
    ShlMonotone(Value(size, ss), Shl(1, n), 14 - n);
  }

  /** Placing one more symbol in the register, as create_status_symbol_chunk does. */
  lemma {:induction false} RegisterStep(size: SymbolSize, ss: seq<Status>, s: Status)
    requires |ss| < Capacity(size) && Narrow(size, ss + [s])
    ensures Register(size, ss) < 0x4000
    ensures SetNBits(Register(size, ss), Bits(size), Width(size, |ss|) + 2, Code(s)) == Register(size, ss + [s])
  {
    var all := ss + [s];
    assert all[..|ss|] == ss && all[|ss|] == s;
    assert forall i :: 0 <= i < |ss| ==> all[i] == ss[i];
    RegisterFits(size, ss);
    hide Low, BitOr, Shl, Code;
    var b := Bits(size);
    LowDigit(Code(s), b);
    AppendDigit(Value(size, ss), Code(s), b, 14 - Width(size, |ss|) - b);
  }

  lemma {:induction false} LowDigit(d: nat, b: nat)
    requires (b == 1 && d < 2) || (b == 2 && d < 4)
    ensures Low(d, b) == d && d < Shl(1, b)
  {
  }

  lemma {:induction false} AppendDigit(v: nat, d: nat, b: nat, k: nat)
    requires d < Shl(1, b)
    ensures BitOr(Shl(v, k + b), Shl(d, k)) == Shl(Shl(v, b) + d, k)
  {
    ShlMonotone(d, Shl(1, b), k);
    ShlTwice(1, b, k);
    OrAdds(v, Shl(d, k), k + b);
    ShlTwice(v, b, k);
    ShlAdds(Shl(v, b), d, k);
  }

  /** The two flag bits written last by write_status_symbol_chunk. */
  lemma {:induction false} FlagBits(size: SymbolSize, ss: seq<Status>)
    requires |ss| <= Capacity(size) && Narrow(size, ss)
    ensures Register(size, ss) < 0x4000
    ensures SetNBits(Register(size, ss), 1, 0, 1) == 0x8000 + Register(size, ss)
    ensures SetNBits(0x8000 + Register(size, ss), 1, 1, Bits(size) - 1) == VectorWord(size, ss)
  {
    RegisterFits(size, ss);
    TypeBit(Register(size, ss));
    SizeBit(Register(size, ss));
    OrZero(0x8000 + Register(size, ss));
  }

  lemma {:induction false} TypeBit(r: nat)
    requires r < 0x4000
    ensures SetNBits(r, 1, 0, 1) == 0x8000 + r
  {
    Shl13(1);
    OrCommutes(r, 0x8000);
    OrAdds(1, r, 15);
    assert Low(1, 1) == 1;
  }

  lemma {:induction false} SizeBit(r: nat)
    requires r < 0x4000
    ensures SetNBits(0x8000 + r, 1, 1, 1) == 0xC000 + r
    ensures SetNBits(0x8000 + r, 1, 1, 0) == BitOr(0x8000 + r, 0)
  {
    Shl13(1);
    Shl13(2);
    Shl13(3);
    Shl13(0);
    assert Low(1, 1) == 1 && Low(0, 1) == 0;
    OrCommutes(0x8000 + r, 0x4000);
    OrSplit(1, 2, r, 14);
    assert BitOr(1, 2) == 3;
  }

  /** Reading back the digits of a number, whatever stands above them. */
  lemma {:induction false} FieldsOfValue(size: SymbolSize, ss: seq<Status>, top: nat)
    requires Narrow(size, ss)
    ensures Fields(Shl(top, Width(size, |ss|)) + Value(size, ss), size, |ss|) == ss
  {
    if ss != [] {
      hide Shl, Fields, Value, Narrow, Width, Bits;
      var init, last := ss[..|ss| - 1], ss[|ss| - 1];
      assert init + [last] == ss;
      NarrowParts(size, init, last);
      FieldsOfValue(size, init, top);
      WidthStep(size, |init|);
      FieldsAppend(size, init, last, top, Width(size, |init|));
    } else {
      hide Shl, Value, Bits;
      assert |Fields(Shl(top, Width(size, |ss|)) + Value(size, ss), size, 0)| == 0;
    }
  }

  lemma {:induction false} NarrowParts(size: SymbolSize, init: seq<Status>, s: Status)
    requires Narrow(size, init + [s])
    ensures Narrow(size, init) && Narrow(size, [s])
  {
    assert (init + [s])[|init|] == s;
    assert forall i :: 0 <= i < |init| ==> (init + [s])[i] == init[i];
  }

  lemma {:induction false} WidthStep(size: SymbolSize, n: nat)
    ensures Width(size, n + 1) == Width(size, n) + Bits(size)
  {
  }

  lemma {:induction false} FieldsAppend(size: SymbolSize, ss: seq<Status>, s: Status, top: nat, k: nat)
    requires Narrow(size, [s]) && Fields(Shl(top, k) + Value(size, ss), size, |ss|) == ss
    ensures Fields(Shl(top, k + Bits(size)) + Value(size, ss + [s]), size, |ss| + 1) == ss + [s]
  {
    hide Shl, Fields, Narrow;
    assert (ss + [s])[..|ss|] == ss;
    ShlTwice(top, k, Bits(size));
    ShlAdds(Shl(top, k), Value(size, ss), Bits(size));
    FieldsStep(Shl(top, k) + Value(size, ss), s, size, |ss|);
  }

  /** Reading one more digit. */
  lemma {:induction false} FieldsStep(w: nat, s: Status, size: SymbolSize, count: nat)
    requires Narrow(size, [s])
    ensures Fields(Shl(w, Bits(size)) + Code(s), size, count + 1) == Fields(w, size, count) + [s]
  {
    Shl2(w);
    assert [s][0] == s;
    CodeRead(s, size);
    hide Code, OfCode, Shl;
    if size == One {
      assert (2 * w + Code(s)) / 2 == w && (2 * w + Code(s)) % 2 == Code(s);
    } else {
      assert (4 * w + Code(s)) / 4 == w && (4 * w + Code(s)) % 4 == Code(s);
    }
  }

  lemma {:induction false} CodeRead(s: Status, size: SymbolSize)
    requires Narrow(size, [s])
    ensures OfCode(Code(s)) == s && Code(s) < if size == One then 2 else 4
  {
    assert [s][0] == s;
  }

  lemma {:induction false} ValueOfPadding(size: SymbolSize, ss: seq<Status>, n: nat)
    ensures Value(size, ss + Repeat(NotReceived, n)) == Shl(Value(size, ss), Width(size, n))
  {
    if n == 0 {
      assert ss + Repeat(NotReceived, 0) == ss;
    } else {
      ValueOfPadding(size, ss, n - 1);
      var all := ss + Repeat(NotReceived, n);
      assert all[..|all| - 1] == ss + Repeat(NotReceived, n - 1);
      assert Width(size, n) == Width(size, n - 1) + Bits(size);
      ShlTwice(Value(size, ss), Width(size, n - 1), Bits(size));
    }
  }

  lemma {:induction false} VectorRoundTrip(size: SymbolSize, ss: seq<Status>)
    requires |ss| <= Capacity(size) && Narrow(size, ss)
    ensures VectorWord(size, ss) < 0x1_0000
    ensures DecodeWord(VectorWord(size, ss)) == ss + Repeat(NotReceived, Capacity(size) - |ss|)
  {
    RegisterFits(size, ss);
    var n := Capacity(size) - |ss|;
    var all := ss + Repeat(NotReceived, n);
    assert Width(size, n) == 14 - Width(size, |ss|);
    ValueOfPadding(size, ss, n);
    var top := if size == One then 2 else 3;
    Shl13(top);
    FieldsOfValue(size, all, top);
  }

  lemma {:induction false} RunWordMod(s: Status, n: nat)
    ensures RunWord(s, n) % 0x2000 == n % 0x2000
    ensures n < 0x2000 ==> RunWord(s, n) == 0x2000 * Code(s) + n
  {
    RunWordModAt(Code(s), n % 0x1_0000);
    ModMod(n);
  }

  lemma {:induction false} ModMod(n: nat)
    ensures n % 0x1_0000 % 0x2000 == n % 0x2000
    ensures n < 0x2000 ==> n % 0x1_0000 == n
  {}

  lemma {:induction false} RunWordModAt(c: nat, m: nat)
    ensures BitOr(0x2000 * c, m) % 0x2000 == m % 0x2000
    ensures m < 0x2000 ==> BitOr(0x2000 * c, m) == 0x2000 * c + m
  {
    var k := ThirteenBits();
    assert Shl(c, k) == 0x2000 * c;
    RunWordBits(c, m, k);
    if m < 0x2000 {
      assert Shl(1, k) == 0x2000;
      OrAdds(c, m, k);
    }
  }

  lemma {:induction false} RunWordHigh(s: Status, n: nat)
    requires s != WithoutDelta && n < 0x8000
    ensures RunWord(s, n) < 0x8000
  {
    hide BitOr, Shl;
    Shl13(1);
    RunWordBound(Code(s), n, 15, 0x8000);
  }

  lemma {:induction false} ThirteenBits() returns (k: nat)
    ensures forall x: nat :: Shl(x, k) == 0x2000 * x
  {
    k := 13;
    forall x: nat ensures Shl(x, k) == 0x2000 * x { Shl13(x); }
  }

  /** Section 3.1.3 in numbers: not received is 0, a small delta 1, a large one 2, in front of 13 bits of length. */
  lemma {:induction false} RunWordIs(s: Status, n: nat)
    requires n < 0x2000
    ensures RunWord(s, n) == n + match s case NotReceived => 0 case SmallDelta => 0x2000 case LargeDelta => 0x4000 case WithoutDelta => 0x6000
  {
    hide RunWord;
    RunWordMod(s, n);
  }

  /** A chunk whose run fits 13 bits reads back as its symbols, padded to the width of a vector. */
  lemma {:induction false} ChunkRoundTrip(c: Chunk)
    requires Writable(c)
    requires c.RunLength? ==> c.length < 0x2000
    ensures DecodeWord(Word(c)) == Padded(c)
  {
    match c
    case RunLength(s, n) =>
      RunWordMod(s, n);
    case Vector(size, ss) =>
      VectorRoundTrip(size, ss);
      assert ss + Repeat(NotReceived, 0) == ss;
  }

  /** A run of 8192 or more loses at least 8192 symbols: its length no longer fits the 13-bit field. */
  lemma {:induction false} LongRunIsLost(s: Status, n: nat)
    requires s != WithoutDelta && n >= 0x2000
    ensures RunWord(s, n) < 0x1_0000
    ensures |DecodeWord(RunWord(s, n))| <= n - 0x2000
  {
    hide RunWord, DecodeWord;
    RunWordFits(s, n);
    RunWordMod(s, n);
    DecodedLength(RunWord(s, n));
    if n < 0x8000 { RunWordHigh(s, n); }
  }

  lemma {:induction false} DecodedLength(w: u16)
    ensures w < 0x8000 ==> |DecodeWord(w)| == w % 0x2000
    ensures |DecodeWord(w)| < 0x2000
  {
  }

  // ---------------------------------------------------------------- byte strings

  lemma {:induction false} ChunkBytesStep(cs: seq<Chunk>, c: Chunk)
    requires AllWritable(cs) && Writable(c)
    ensures AllWritable(cs + [c])
    ensures ChunkBytes(cs + [c]) == ChunkBytes(cs) + Be16(Word(c))
  {
  }

  lemma {:induction false} FlattenStep(cs: seq<Chunk>, c: Chunk)
    ensures Flatten(cs + [c]) == Flatten(cs) + Symbols(c)
  {
  }

  lemma {:induction false} DecodeStep(bytes: seq<u8>, w: u16)
    ensures DecodeChunkBytes(bytes + Be16(w)) == DecodeChunkBytes(bytes) + DecodeWord(w)
  {
  }

  /** One more chunk whose run fits its field adds its padded symbols to what a receiver reads. */
  lemma {:induction false} DecodeAppend(cs: seq<Chunk>, c: Chunk)
    requires AllWritable(cs) && Writable(c) && (c.RunLength? ==> c.length < 0x2000)
    ensures AllWritable(cs + [c])
    ensures DecodeChunkBytes(ChunkBytes(cs + [c])) == DecodeChunkBytes(ChunkBytes(cs)) + Padded(c)
  {
    ChunkBytesStep(cs, c);
    ChunkRoundTrip(c);
    DecodeStep(ChunkBytes(cs), Word(c));
  }

  /** One more chunk with a run of 8192 or more adds at least 8192 symbols fewer than it stands for. */
  lemma {:induction false} DecodeAppendLong(cs: seq<Chunk>, s: Status, n: nat)
    requires AllWritable(cs) && s != WithoutDelta && n >= 0x2000
    ensures AllWritable(cs + [RunLength(s, n)])
    ensures |DecodeChunkBytes(ChunkBytes(cs + [RunLength(s, n)]))| + 0x2000 <= |DecodeChunkBytes(ChunkBytes(cs))| + n
  {
    ChunkBytesStep(cs, RunLength(s, n));
    LongRunIsLost(s, n);
    DecodeStep(ChunkBytes(cs), Word(RunLength(s, n)));
  }
}
