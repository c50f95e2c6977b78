/** The VP8 payload descriptor (section 4.2 of RFC 7741): how it is laid out, how the buffer reads it, and
    what rewriting the picture ID and TL0PICIDX in place does to it. */
module Vp8 {
  import opened Numbers
  import opened Wrappers

  // ---------------------------------------------------------------- the descriptor

  datatype Picture = Short(id: nat) | Long(id: nat)

  /** `tk` is the TID/Y/KEYIDX octet, present when T or K is set; `rsv` stands for reserved bits. */
  datatype Extension = Extension(picture: Option<Picture>, tl0: Option<u8>, t: bool, k: bool, tk: u8, rsv: nat)

  /** `high` holds the R and N bits, `low` the second R bit and the partition index. */
  datatype Descriptor = Descriptor(high: nat, s: bool, low: nat, ext: Option<Extension>)

  predicate ValidPicture(p: Picture) { if p.Short? then p.id < 0x80 else p.id < 0x8000 }

  predicate ValidExtension(e: Extension) {
    && (e.picture.Some? ==> ValidPicture(e.picture.value))
    && e.rsv < 16 && (!e.t && !e.k ==> e.tk == 0)
  }

  predicate Valid(d: Descriptor) {
    d.high < 4 && d.low < 16 && (d.ext.Some? ==> ValidExtension(d.ext.value))
  }

  function Flag(b: bool, weight: nat): nat { if b then weight else 0 }

  function PrintPicture(p: Option<Picture>): seq<u8>
    requires p.Some? ==> ValidPicture(p.value)
  {
    match p
    case None => []
    case Some(Short(id)) => [id]
    case Some(Long(id)) => [0x80 + id / 0x100, id % 0x100]
  }

  function PrintTl0(tl0: Option<u8>): seq<u8> { if tl0.Some? then [tl0.value] else [] }

  function PrintTk(e: Extension): seq<u8> { if e.t || e.k then [e.tk] else [] }

  function FlagOctet(e: Extension): u8
    requires ValidExtension(e)
  {
    Flag(e.picture.Some?, 0x80) + Flag(e.tl0.Some?, 0x40) + Flag(e.t, 0x20) + Flag(e.k, 0x10) + e.rsv
  }

  function FirstOctet(d: Descriptor): u8
    requires Valid(d)
  {
    Flag(d.ext.Some?, 0x80) + 0x20 * d.high + Flag(d.s, 0x10) + d.low
  }

  function Print(d: Descriptor): seq<u8>
    requires Valid(d)
  {
    [FirstOctet(d)] +
    match d.ext
    case None => []
    case Some(e) => PrintExtension(e)
  }

  function PrintExtension(e: Extension): seq<u8>
    requires ValidExtension(e)
  {
    [FlagOctet(e)] + PrintPicture(e.picture) + PrintTl0(e.tl0) + PrintTk(e)
  }

  // ---------------------------------------------------------------- what the buffer wants to know

  datatype Fields = Fields(
    temporalSupported: bool, pictureId: u16, pictureIdIdx: int, mbit: bool,
    tl0PictureIdx: u8, tlzIdx: int, tid: u8, isKeyFrame: bool)

  const DEFAULT := Fields(false, 0, 0, false, 0, 0, 0, false)

  function PictureLength(p: Option<Picture>): nat {
    match p case None => 0 case Some(Short(_)) => 1 case Some(Long(_)) => 2
  }

  /** What a parser holding `base` knows after a descriptor in front of a payload: absent fields stay as
      they were, and a key frame is the start of a partition whose first bit, P, is clear. */
  function View(base: Fields, d: Descriptor, first: u8): Fields {
    var key := d.s && first % 2 == 0;
    match d.ext
    case None => base.(isKeyFrame := key)
    case Some(e) =>
      ViewExtension(base, e).(isKeyFrame := key)
  }

  function ViewExtension(base: Fields, e: Extension): Fields {
    ViewTk(ViewTl0(ViewPicture(base.(temporalSupported := e.t), e.picture), e), e)
  }

  function ViewPicture(base: Fields, p: Option<Picture>): Fields {
    match p
    case None => base
    case Some(Short(id)) => base.(pictureId := id % 0x1_0000, pictureIdIdx := 2)
    case Some(Long(id)) => base.(pictureId := id % 0x1_0000, pictureIdIdx := 2, mbit := true)
  }

  function ViewTl0(base: Fields, e: Extension): Fields {
    if e.tl0.None? then base else base.(tl0PictureIdx := e.tl0.value, tlzIdx := 2 + PictureLength(e.picture))
  }

  function ViewTk(base: Fields, e: Extension): Fields {
    if e.t || e.k then base.(tid := e.tk / 0x40) else base
  }

  // ---------------------------------------------------------------- reading, part by part

  predicate HasBit(b: u8, weight: nat)
    requires weight > 0
  {
    b / weight % 2 == 1
  }

  function ReadPicture(present: bool, p: seq<u8>): Option<(Option<Picture>, seq<u8>)> {
    if !present then Some((None, p))
    else if p == [] then None
    else if p[0] < 0x80 then Some((Some(Short(p[0])), p[1..]))
    else if |p| == 1 then None
    else
      var high: int := p[0];
      Some((Some(Long(high % 0x80 * 0x100 + p[1])), p[2..]))
  }

  function ReadTl0(present: bool, p: seq<u8>): Option<(Option<u8>, seq<u8>)> {
    if !present then Some((None, p)) else if p == [] then None else Some((Some(p[0]), p[1..]))
  }

  function ReadTk(present: bool, p: seq<u8>): Option<(u8, seq<u8>)> {
    if !present then Some((0, p)) else if p == [] then None else Some((p[0], p[1..]))
  }

  function ReadExtension(p: seq<u8>): Option<(Extension, seq<u8>)> {
    if p == [] then None
    else
      var x := p[0];
      var t, k := HasBit(x, 0x20), HasBit(x, 0x10);
      match ReadPicture(HasBit(x, 0x80), p[1..])
      case None => None
      case Some((picture, p2)) =>
        match ReadTl0(HasBit(x, 0x40), p2)
        case None => None
        case Some((tl0, p3)) =>
          match ReadTk(t || k, p3)
          case None => None
          case Some((tk, p4)) => Some((Extension(picture, tl0, t, k, tk, x % 0x10), p4))
  }

  /** The reference reading: a descriptor, and the rest, which may not be empty. */
  function ReadDescriptor(p: seq<u8>): (r: Option<(Descriptor, seq<u8>)>)
    ensures r.Some? ==> r.value.1 != []
  {
    if p == [] then None
    else
      var b: int := p[0];
      var high, s, low := b / 0x20 % 4, HasBit(b, 0x10), b % 0x10;
      if !HasBit(b, 0x80) then
        if |p| == 1 then None else Some((Descriptor(high, s, low, None), p[1..]))
      else
        match ReadExtension(p[1..])
        case None => None
        case Some((e, rest)) => if rest == [] then None else Some((Descriptor(high, s, low, Some(e)), rest))
  }

  // ---------------------------------------------------------------- round trips

  lemma {:induction false} FirstOctetBits(d: Descriptor)
    requires Valid(d)
    ensures var b: int := FirstOctet(d);
            HasBit(b, 0x80) == d.ext.Some? && b / 0x20 % 4 == d.high && HasBit(b, 0x10) == d.s && b % 0x10 == d.low
  {
  }

  lemma {:induction false} FlagOctetBits(e: Extension)
    requires ValidExtension(e)
    ensures var x := FlagOctet(e);
            && HasBit(x, 0x80) == e.picture.Some? && HasBit(x, 0x40) == e.tl0.Some?
            && HasBit(x, 0x20) == e.t && HasBit(x, 0x10) == e.k && x % 0x10 == e.rsv
  {
  }

  lemma {:induction false} ReadPrintPicture(p: Option<Picture>, rest: seq<u8>)
    requires p.Some? ==> ValidPicture(p.value)
    ensures ReadPicture(p.Some?, PrintPicture(p) + rest) == Some((p, rest))
  {
    var all := PrintPicture(p) + rest;
    match p
    case None => assert all == rest;
    case Some(Short(_)) => assert all[1..] == rest;
    case Some(Long(_)) => assert all[2..] == rest;
  }

  lemma {:induction false} ReadPrintTail(e: Extension, rest: seq<u8>)
    requires ValidExtension(e)
    ensures ReadTl0(e.tl0.Some?, PrintTl0(e.tl0) + (PrintTk(e) + rest)) == Some((e.tl0, PrintTk(e) + rest))
    ensures ReadTk(e.t || e.k, PrintTk(e) + rest) == Some((e.tk, rest))
  {
    var p4 := PrintTk(e) + rest;
    var p3 := PrintTl0(e.tl0) + p4;
    assert p3[|PrintTl0(e.tl0)|..] == p4;
    assert p4[|PrintTk(e)|..] == rest;
    assert e.tl0.None? ==> p3 == p4;
    assert !e.t && !e.k ==> p4 == rest;
  }

  lemma {:induction false} ReadPrintExtension(e: Extension, rest: seq<u8>)
    requires ValidExtension(e)
    ensures ReadExtension(PrintExtension(e) + rest) == Some((e, rest))
  {
    hide ReadPicture, PrintPicture, HasBit, FlagOctet;
    FlagOctetBits(e);
    var p4 := PrintTk(e) + rest;
    var p3 := PrintTl0(e.tl0) + p4;
    var p2 := PrintPicture(e.picture) + p3;
    var p := PrintExtension(e) + rest;
    assert p == [FlagOctet(e)] + p2;
    assert p[1..] == p2;
    ReadPrintPicture(e.picture, p3);
    ReadPrintTail(e, rest);
  }

  /** Reading undoes printing, unless nothing follows the descriptor. */
  lemma {:induction false} ReadPrint(d: Descriptor, rest: seq<u8>)
    requires Valid(d)
    ensures ReadDescriptor(Print(d) + rest) == if rest == [] then None else Some((d, rest))
  {
    hide ReadExtension, PrintExtension, HasBit, FirstOctet;
    FirstOctetBits(d);
    var p := Print(d) + rest;
    if d.ext.Some? {
      assert p[1..] == PrintExtension(d.ext.value) + rest;
      ReadPrintExtension(d.ext.value, rest);
    } else {
      assert p[1..] == rest;
    }
  }

  lemma {:induction false} OctetFromBits(x: u8)
    ensures x == Flag(HasBit(x, 0x80), 0x80) + Flag(HasBit(x, 0x40), 0x40) + Flag(HasBit(x, 0x20), 0x20)
                 + Flag(HasBit(x, 0x10), 0x10) + x % 0x10
    ensures x == Flag(HasBit(x, 0x80), 0x80) + 0x20 * (x / 0x20 % 4) + Flag(HasBit(x, 0x10), 0x10) + x % 0x10
  {
  }

  lemma {:induction false} PrintReadPicture(present: bool, p: seq<u8>)
    requires ReadPicture(present, p).Some?
    ensures var (picture, rest) := ReadPicture(present, p).value;
            && picture.Some? == present && (present ==> ValidPicture(picture.value))
            && PrintPicture(picture) + rest == p
  {
  }

  lemma {:induction false} PrintReadTl0(present: bool, p: seq<u8>)
    requires ReadTl0(present, p).Some?
    ensures var (tl0, rest) := ReadTl0(present, p).value; tl0.Some? == present && PrintTl0(tl0) + rest == p
  {
  }

  lemma {:induction false} PrintReadTk(e: Extension, p: seq<u8>)
    requires ReadTk(e.t || e.k, p).Some? && ReadTk(e.t || e.k, p).value.0 == e.tk
    ensures PrintTk(e) + ReadTk(e.t || e.k, p).value.1 == p && (!e.t && !e.k ==> e.tk == 0)
  {
  }

  lemma {:induction false} PrintReadExtension(p: seq<u8>)
    requires ReadExtension(p).Some?
    ensures var (e, rest) := ReadExtension(p).value; ValidExtension(e) && PrintExtension(e) + rest == p
  {
    hide ReadPicture, PrintPicture, HasBit, ReadTl0, ReadTk, PrintTl0, PrintTk, ValidPicture, Flag;
    var x := p[0];
    OctetFromBits(x);
    PrintReadPicture(HasBit(x, 0x80), p[1..]);
    var p2 := ReadPicture(HasBit(x, 0x80), p[1..]).value.1;
    PrintReadTl0(HasBit(x, 0x40), p2);
    var p3 := ReadTl0(HasBit(x, 0x40), p2).value.1;
    var (e, rest) := ReadExtension(p).value;
    PrintReadTk(e, p3);
    assert FlagOctet(e) == x;
    Reassociate([x], PrintPicture(e.picture), PrintTl0(e.tl0), PrintTk(e), rest);
    assert p == [x] + p[1..];
  }

  lemma {:induction false} Reassociate<T>(a: seq<T>, b: seq<T>, c: seq<T>, d: seq<T>, e: seq<T>)
    ensures a + b + c + d + e == a + (b + (c + (d + e)))
  {
  }

  /** Every payload that can be read is the print of what was read. */
  lemma {:induction false} PrintRead(p: seq<u8>)
    requires ReadDescriptor(p).Some?
    ensures var (d, rest) := ReadDescriptor(p).value; Valid(d) && Print(d) + rest == p
  {
    hide ReadExtension, PrintExtension, HasBit;
    OctetFromBits(p[0]);
    if HasBit(p[0], 0x80) {
      PrintReadExtension(p[1..]);
    }
  }

  /** So the reading finds a descriptor and a rest exactly when the payload is their print and the rest is
      not empty: no payload has two readings. */
  lemma {:induction false} ReadsIff(p: seq<u8>, d: Descriptor, rest: seq<u8>)
    ensures ReadDescriptor(p) == Some((d, rest)) <==> Valid(d) && rest != [] && p == Print(d) + rest
  {
    if ReadDescriptor(p) == Some((d, rest)) {
      PrintRead(p);
    }
    if Valid(d) && rest != [] && p == Print(d) + rest {
      ReadPrint(d, rest);
    }
  }

  // ---------------------------------------------------------------- what is known, field by field

  /** What is known of a field the extension has is what is printed, at the index at which it is printed;
      a field it does not have stays as it was. */
  lemma {:induction false} KnownFields(was: Fields, e: Extension, a: u8, rest: seq<u8>)
    requires ValidExtension(e)
    ensures var p, now := [a] + PrintExtension(e) + rest, ViewExtension(was, e);
            && now.temporalSupported == e.t
            && (match e.picture
                case None => now.pictureId == was.pictureId && now.pictureIdIdx == was.pictureIdIdx && now.mbit == was.mbit
                case Some(Short(id)) => now.pictureId == id && now.pictureIdIdx == 2 && p[2] == id && now.mbit == was.mbit
                case Some(Long(id)) =>
                  now.pictureId == id && now.pictureIdIdx == 2 && p[2] == 0x80 + id / 0x100 && p[3] == id % 0x100 && now.mbit)
            && (match e.tl0
                case None => now.tl0PictureIdx == was.tl0PictureIdx && now.tlzIdx == was.tlzIdx
                case Some(tl0) => now.tl0PictureIdx == tl0 && 2 <= now.tlzIdx < |p| && p[now.tlzIdx] == tl0)
            && now.tid == if e.t || e.k then e.tk / 0x40 else was.tid
  {
    hide FlagOctet, ValidPicture, Flag, PrintPicture, PrintTk, ViewExtension;
    var tail := PrintTl0(e.tl0) + (PrintTk(e) + rest);
    var p := [a] + PrintExtension(e) + rest;
    assert p == [a, FlagOctet(e)] + PrintPicture(e.picture) + tail;
    PicturePrinted(e.picture, a, FlagOctet(e), tail);
    FieldsTold(was, e);
    if e.tl0.Some? { assert p[2 + PictureLength(e.picture)..][0] == tail[0] == e.tl0.value; }
  }

  lemma {:induction false} PicturePrinted(picture: Option<Picture>, a: u8, b: u8, tail: seq<u8>)
    requires picture.Some? ==> ValidPicture(picture.value)
    ensures var p := [a, b] + PrintPicture(picture) + tail;
            && |p| >= 2 + PictureLength(picture) && p[2 + PictureLength(picture)..] == tail
            && (match picture
                case None => true
                case Some(Short(id)) => p[2] == id && id < 0x1_0000
                case Some(Long(id)) => p[2] == 0x80 + id / 0x100 && p[3] == id % 0x100 && id < 0x1_0000)
  {
  }

  lemma {:induction false} FieldsTold(was: Fields, e: Extension)
    ensures ViewExtension(was, e) == Fields(
              e.t,
              if e.picture.Some? then e.picture.value.id % 0x1_0000 else was.pictureId,
              if e.picture.Some? then 2 else was.pictureIdIdx,
              was.mbit || (e.picture.Some? && e.picture.value.Long?),
              if e.tl0.Some? then e.tl0.value else was.tl0PictureIdx,
              if e.tl0.Some? then 2 + PictureLength(e.picture) else was.tlzIdx,
              if e.t || e.k then e.tk / 0x40 else was.tid,
              was.isKeyFrame)
  {
  }

  /** All that is known, in the octets of the payload. X is the top bit of the first octet and S its bit of
      weight 16; I, L, T and K are the four top bits of the second. A key frame starts where S is set and P,
      the lowest bit behind the descriptor, is clear (section 4.3 of RFC 7741). Nothing is read from a payload
      that ends before an octet announced or with the last of them. */
  lemma {:induction false} KnownOctets(was: Fields, p: seq<u8>)
    requires p != []
    ensures var x, b: seq<int> := p[0] >= 0x80, p;
            var i, l, t, k := x && |p| > 1 && p[1] >= 0x80, x && |p| > 1 && p[1] / 0x40 % 2 == 1,
                              x && |p| > 1 && p[1] / 0x20 % 2 == 1, x && |p| > 1 && p[1] / 0x10 % 2 == 1;
            var tl := if !i then 2 else if |p| > 2 && p[2] < 0x80 then 3 else 4;
            var tk := if l then tl + 1 else tl;
            var end := if !x then 1 else if t || k then tk + 1 else tk;
            && (ReadDescriptor(p).Some? <==> |p| > end)
            && (|p| > end ==>
                  var now := View(was, ReadDescriptor(p).value.0, ReadDescriptor(p).value.1[0]);
                  now == Fields(
                    if x then t else was.temporalSupported,
                    if !i then was.pictureId else if tl == 3 then b[2] else 0x100 * (b[2] - 0x80) + b[3],
                    if i then 2 else was.pictureIdIdx,
                    was.mbit || (i && tl == 4),
                    if l then p[tl] else was.tl0PictureIdx,
                    if l then tl else was.tlzIdx,
                    if t || k then p[tk] / 0x40 else was.tid,
                    p[0] / 0x10 % 2 == 1 && p[end] % 2 == 0))
  {
    hide ReadExtension, HasBit, ViewExtension;
    assert HasBit(p[0], 0x80) == (p[0] >= 0x80) && HasBit(p[0], 0x10) == (p[0] / 0x10 % 2 == 1) by { TopBit(p[0]); }
    if p[0] < 0x80 {
      if |p| > 1 { assert p[1..][0] == p[1]; }
    } else if |p| == 1 {
      assert p[1..] == [];
      NoExtension();
    } else {
      OctetsOfExtension(p);
      if ReadExtension(p[1..]).Some? { FieldsTold(was, ReadExtension(p[1..]).value.0); }
    }
  }

  lemma {:induction false} NoExtension()
    ensures ReadExtension([]) == None
  {
  }

  lemma {:induction false} TopBit(b: u8)
    ensures HasBit(b, 0x80) == (b >= 0x80) && HasBit(b, 0x10) == (b / 0x10 % 2 == 1)
  {
  }

  lemma {:induction false} OctetsOfExtension(p: seq<u8>)
    requires |p| > 1
    ensures var i, l, t, k := p[1] >= 0x80, p[1] / 0x40 % 2 == 1, p[1] / 0x20 % 2 == 1, p[1] / 0x10 % 2 == 1;
            var b: seq<int> := p;
            var tl := if !i then 2 else if |p| > 2 && p[2] < 0x80 then 3 else 4;
            var tk := if l then tl + 1 else tl;
            var end := if t || k then tk + 1 else tk;
            var r := ReadExtension(p[1..]);
            && (r.Some? <==> |p| >= end)
            && (|p| >= end ==>
                  && r.value.1 == p[end..]
                  && r.value.0.picture == (if !i then None else if tl == 3 then Some(Short(b[2])) else Some(Long(0x100 * (b[2] - 0x80) + b[3])))
                  && r.value.0.tl0 == (if l then Some(p[tl]) else None)
                  && r.value.0.t == t && r.value.0.k == k
                  && r.value.0.tk == if t || k then p[tk] else 0)
  {
    var q := p[1..];
    assert q[0] == p[1] && q[1..] == p[2..];
    var i, l := p[1] >= 0x80, p[1] / 0x40 % 2 == 1;
    var tl := if !i then 2 else if |p| > 2 && p[2] < 0x80 then 3 else 4;
    PictureOctets(p, i);
    if |p| >= tl {
      var p2 := p[tl..];
      if l && p2 != [] { assert p2[1..] == p[tl + 1..]; }
      var tk := if l then tl + 1 else tl;
      if |p| > tk { assert p[tk..][1..] == p[tk + 1..]; }
    }
  }

  lemma {:induction false} PictureOctets(p: seq<u8>, i: bool)
    requires |p| > 1
    ensures var b: seq<int> := p;
            var tl := if !i then 2 else if |p| > 2 && p[2] < 0x80 then 3 else 4;
            var r := ReadPicture(i, p[2..]);
            && (r.Some? <==> |p| >= tl)
            && (|p| >= tl ==>
                  && r.value.1 == p[tl..]
                  && r.value.0 == if !i then None else if tl == 3 then Some(Short(b[2])) else Some(Long(0x100 * (b[2] - 0x80) + b[3])))
  {
    var q := p[2..];
    if i && |p| > 2 {
      assert q[0] == p[2] && q[1..] == p[3..];
      if |p| > 3 { assert q[1] == p[3] && q[2..] == p[4..]; }
    }
  }

  // ---------------------------------------------------------------- the parser

  datatype Error = NilPacket | ShortPacket

  class Parser {
    var f: Fields

    constructor ()
      ensures f == DEFAULT
    {
      f := DEFAULT;
    }

    /** Succeeds exactly on a descriptor followed by at least one byte, and then knows its fields. */
    method Unmarshal(payload: seq<u8>) returns (r: Result<(), Error>)
      modifies this
      ensures r == Err(NilPacket) <==> payload == []
      ensures r.Ok? <==> ReadDescriptor(payload).Some?
      ensures r.Ok? ==> f == View(old(f), ReadDescriptor(payload).value.0, ReadDescriptor(payload).value.1[0])
    {
      if payload == [] {
        return Err(NilPacket);
      }
      var idx := 0;
      var s := HasBit(payload[idx], 0x10);
      if HasBit(payload[idx], 0x80) {
        idx := idx + 1;
        if |payload| < idx + 1 {
          return Err(ShortPacket);
        }
        var ok;
        ok, idx := Extended(payload);
        if !ok {
          return Err(ShortPacket);
        }
      }
      idx := idx + 1;
      if |payload| < idx + 1 {
        return Err(ShortPacket);
      }
      f := f.(isKeyFrame := !HasBit(payload[idx], 1) && s);
      r := Ok(());
    }

    /** The octets the X bit announces: `idx` is left on the last of them. */
    method Extended(payload: seq<u8>) returns (ok: bool, idx: nat)
      requires |payload| >= 2
      modifies this
      ensures ok <==> ReadExtension(payload[1..]).Some?
      ensures ok ==> idx < |payload| && payload[idx + 1..] == ReadExtension(payload[1..]).value.1
      ensures ok ==> f == ViewExtension(old(f), ReadExtension(payload[1..]).value.0)
    {
      hide ReadPicture, HasBit, ViewPicture;
      ok, idx := false, 1;
      f := f.(temporalSupported := HasBit(payload[idx], 0x20));
      var k := HasBit(payload[idx], 0x10);
      var l := HasBit(payload[idx], 0x40);
      var picOk, picIdx := PictureId(payload);
      if !picOk {
        return;
      }
      idx := picIdx;
      if l {
        idx := idx + 1;
        if |payload| < idx + 1 {
          return;
        }
        f := f.(tlzIdx := idx);
        f := f.(tl0PictureIdx := payload[idx]);
      }
      if f.temporalSupported || k {
        idx := idx + 1;
        if |payload| < idx + 1 {
          return;
        }
        f := f.(tid := payload[idx] / 0x40);
      }
      ok := true;
    }

    method PictureId(payload: seq<u8>) returns (ok: bool, idx: nat)
      requires |payload| >= 2
      modifies this
      ensures var r := ReadPicture(HasBit(payload[1], 0x80), payload[2..]);
              && (ok <==> r.Some?)
              && (ok ==> idx == 1 + PictureLength(r.value.0) && idx < |payload| && payload[idx + 1..] == r.value.1)
              && (ok ==> f == ViewPicture(old(f), r.value.0))
      ensures f.temporalSupported == old(f.temporalSupported)
    {
      ok, idx := false, 1;
      if HasBit(payload[idx], 0x80) {
        idx := idx + 1;
        if |payload| < idx + 1 {
          return;
        }
        f := f.(pictureIdIdx := idx);
        var pid: int := payload[idx] % 0x80;
        if HasBit(payload[idx], 0x80) {
          idx := idx + 1;
          if |payload| < idx + 1 {
            return;
          }
          var low: int := payload[idx];
          f := f.(mbit := true, pictureId := pid * 0x100 + low);
        } else {
          f := f.(pictureId := pid);
        }
      }
      ok := true;
    }
  }

  // ---------------------------------------------------------------- rewriting in place

  /** `payload` with the picture ID at `i` and the TL0PICIDX at `t` replaced. */
  function Modified(payload: seq<u8>, i: nat, t: nat, picId: u16, tl0: u8, m: bool): (r: seq<u8>)
    requires i < |payload| && t < |payload| && (m ==> i + 1 < |payload|)
    ensures |r| == |payload|
    ensures forall j :: 0 <= j < |r| && j != i && j != t && !(m && j == i + 1) ==> r[j] == payload[j]
  {
    var id: int := picId;
    if m then payload[i := id / 0x100 % 0x80 + 0x80][i + 1 := id % 0x100][t := tl0]
    else payload[i := id / 0x100][t := tl0]
  }

  method ModifyTemporalPayload(payload: array<u8>, picIdIdx: nat, tlz0Idx: nat, picId: u16, tlz0Id: u8, mBit: bool)
    requires picIdIdx < payload.Length && tlz0Idx < payload.Length && (mBit ==> picIdIdx + 1 < payload.Length)
    modifies payload
    ensures payload[..] == Modified(old(payload[..]), picIdIdx, tlz0Idx, picId, tlz0Id, mBit)
  {
    var id: int := picId;
    payload[picIdIdx] := id / 0x100;
    if mBit {
      var high: int := payload[picIdIdx];
      payload[picIdIdx] := if high < 0x80 then high + 0x80 else high;
      payload[picIdIdx + 1] := id % 0x100;
    }
    payload[tlz0Idx] := tlz0Id;
  }

  /** `d` carrying another picture ID and TL0PICIDX; the picture ID keeps its width. */
  function WithIds(d: Descriptor, picId: nat, tl0: u8): Descriptor
    requires d.ext.Some? && d.ext.value.picture.Some?
  {
    var e := d.ext.value;
    d.(ext := Some(e.(picture := Some(e.picture.value.(id := picId)), tl0 := Some(tl0))))
  }

  /** The source rewrites at the indices it parsed. */
  function Rewritten(d: Descriptor, rest: seq<u8>, picId: u16, tl0: u8): seq<u8>
    requires Valid(d) && d.ext.Some? && d.ext.value.picture.Some? && d.ext.value.tl0.Some?
  {
    var v := View(DEFAULT, d, 0);
    Modified(Print(d) + rest, v.pictureIdIdx, v.tlzIdx, picId, tl0, v.mbit)
  }

  lemma {:induction false} PrintedAt(d: Descriptor, rest: seq<u8>)
    requires Valid(d) && d.ext.Some? && d.ext.value.picture.Some? && d.ext.value.tl0.Some?
    ensures var e := d.ext.value;
            Print(d) + rest == [FirstOctet(d), FlagOctet(e)] + PrintPicture(e.picture) + [e.tl0.value] + (PrintTk(e) + rest)
  {
  }

  /** Replacing the picture ID and TL0PICIDX between two octets and a tail. */
  lemma {:induction false} ModifiedAt(a: u8, b: u8, was: Picture, tl: u8, tail: seq<u8>, picId: u16, tl0: u8)
    requires ValidPicture(was) && (was.Long? || picId < 0x8000)
    ensures var id: nat := picId;
            var id' := if was.Long? then id % 0x8000 else id / 0x100;
            var pic := was.(id := id');
            && ValidPicture(pic)
            && Modified([a, b] + PrintPicture(Some(was)) + [tl] + tail, 2, 2 + PictureLength(Some(was)), picId, tl0, was.Long?)
               == [a, b] + PrintPicture(Some(pic)) + [tl0] + tail
  {
  }

  /** What the rewriting leaves: a long picture ID modulo 2^15, a short one replaced by the high octet. */
  lemma {:induction false} RewritePrints(d: Descriptor, rest: seq<u8>, picId: u16, tl0: u8)
    requires Valid(d) && d.ext.Some? && d.ext.value.picture.Some? && d.ext.value.tl0.Some?
    requires d.ext.value.picture.value.Long? || picId < 0x8000
    ensures var id: nat := picId;
            var d' := WithIds(d, if d.ext.value.picture.value.Long? then id % 0x8000 else id / 0x100, tl0);
            Valid(d') && Rewritten(d, rest, picId, tl0) == Print(d') + rest
  {
    hide PrintPicture, Modified, ValidPicture, Print, PrintTk, PictureLength;
    var e := d.ext.value;
    var id: nat := picId;
    var d' := WithIds(d, if e.picture.value.Long? then id % 0x8000 else id / 0x100, tl0);
    ModifiedAt(FirstOctet(d), FlagOctet(e), e.picture.value, e.tl0.value, PrintTk(e) + rest, picId, tl0);
    PrintedAt(d, rest);
    PrintedAt(d', rest);
    assert PrintTk(d'.ext.value) == PrintTk(e) by { SameTk(e, d'.ext.value); }
    assert View(DEFAULT, d, 0).mbit == e.picture.value.Long?;
  }

  lemma {:induction false} SameTk(e: Extension, e': Extension)
    requires e.t == e'.t && e.k == e'.k && e.tk == e'.tk
    ensures PrintTk(e) == PrintTk(e')
  {
  }

  /** A long picture ID put in place of a short one makes the descriptor another one. */
  lemma {:induction false} ShortTurnsLong(d: Descriptor, rest: seq<u8>, picId: u16, tl0: u8)
    requires Valid(d) && d.ext.Some? && d.ext.value.picture.Some? && d.ext.value.tl0.Some?
    requires d.ext.value.picture.value.Short? && picId >= 0x8000
    ensures var r := ReadDescriptor(Rewritten(d, rest, picId, tl0));
            r.Some? ==> r.value.0.ext.Some? && r.value.0.ext.value.picture.Some? && r.value.0.ext.value.picture.value.Long?
  {
  }

  /** Reading the rewritten payload gives the new picture ID and TL0PICIDX with everything else unchanged
      exactly when the picture ID is long and below 2^15, or short and zero. */
  lemma {:induction false} RewriteReadsIff(d: Descriptor, rest: seq<u8>, picId: u16, tl0: u8)
    requires Valid(d) && d.ext.Some? && d.ext.value.picture.Some? && d.ext.value.tl0.Some? && rest != []
    ensures ReadDescriptor(Rewritten(d, rest, picId, tl0)) == Some((WithIds(d, picId, tl0), rest))
       <==> if d.ext.value.picture.value.Long? then picId < 0x8000 else picId == 0
  {
    hide ReadDescriptor, Rewritten;
    if d.ext.value.picture.value.Long? || picId < 0x8000 {
      RewritePrints(d, rest, picId, tl0);
      var id: nat := picId;
      ReadPrint(WithIds(d, if d.ext.value.picture.value.Long? then id % 0x8000 else id / 0x100, tl0), rest);
    } else {
      ShortTurnsLong(d, rest, picId, tl0);
    }
  }
}
