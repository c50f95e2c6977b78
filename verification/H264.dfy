/** The key-frame test on H.264 payloads: single units, aggregation packets and fragments
    (sections 5.6 to 5.8 of RFC 6184). */
module H264 {
  import opened Numbers

  const SPS := 7

  /** Where the first unit's length stands: after the packet's own header and, but for STAP-A, the DON. */
  function Start(nalu: nat): nat { if nalu == 24 then 1 else 3 }

  /** What stands between a unit's length and its header: in MTAPs the DON distance and a time offset. */
  function Offset(nalu: nat): nat { if nalu == 26 then 3 else if nalu == 27 then 4 else 0 }

  predicate Malformed(p: seq<u8>, offset: nat) {
    |p| < 2 || ReadBe16(p, 0) > |p| - 2 || ReadBe16(p, 0) <= offset
  }

  /** The length-prefixed units up to the first malformed one, or to the end. */
  function Units(p: seq<u8>, offset: nat): (us: seq<seq<u8>>)
    ensures forall k :: 0 <= k < |us| ==> offset < |us[k]| < 0x1_0000
    decreases |p|
  {
    if Malformed(p, offset) then []
    else
      var n := ReadBe16(p, 0);
      [p[2..2 + n]] + Units(p[2 + n..], offset)
  }

  predicate IsSps(unit: seq<u8>, offset: nat) { offset < |unit| && unit[offset] % 0x20 == SPS }

  predicate HasSps(us: seq<seq<u8>>, offset: nat) { exists k :: 0 <= k < |us| && IsSps(us[k], offset) }

  /** Some well-formed unit from `i` on is an SPS. */
  predicate Ahead(payload: seq<u8>, i: nat, offset: nat) {
    i < |payload| && HasSps(Units(payload[i..], offset), offset)
  }

  /** What makes a payload the start of a key frame. */
  predicate KeyFrame(payload: seq<u8>) {
    payload != [] &&
    var nalu := payload[0] % 0x20;
    if 1 <= nalu <= 23 then nalu == 5
    else if 24 <= nalu <= 27 then Ahead(payload, Start(nalu), Offset(nalu))
    else if 28 <= nalu <= 29 then |payload| >= 2 && payload[1] >= 0x80 && payload[1] % 0x20 == SPS
    else false
  }

  method IsH264Keyframe(payload: seq<u8>) returns (key: bool)
    ensures key == KeyFrame(payload)
  {
    if payload == [] {
      return false;
    }
    var nalu := payload[0] % 0x20;
    if nalu == 0 {
      return false;
    } else if nalu <= 23 {
      return nalu == 5;
    } else if nalu == 24 || nalu == 25 || nalu == 26 || nalu == 27 {
      key := ScanUnits(payload, nalu);
      return;
    } else if nalu == 28 || nalu == 29 {
      if |payload| < 2 {
        return false;
      }
      if payload[1] < 0x80 {
        return false;
      }
      return payload[1] % 0x20 == 7;
    }
    return false;
  }

  method ScanUnits(payload: seq<u8>, nalu: nat) returns (key: bool)
    requires 24 <= nalu <= 27
    ensures key == Ahead(payload, Start(nalu), Offset(nalu))
  {
    hide Ahead, ReadBe16;
    var i := 1;
    if nalu == 25 || nalu == 26 || nalu == 27 {
      i := i + 2;
    }
    while i < |payload|
      invariant Ahead(payload, Start(nalu), Offset(nalu)) == Ahead(payload, i, Offset(nalu))
      decreases |payload| - i
    {
      AheadStep(payload, i, Offset(nalu));
      if i + 2 > |payload| {
        return false;
      }
      var length := ReadBe16(payload, i);
      i := i + 2;
      if i + length > |payload| {
        return false;
      }
      var offset := 0;
      if nalu == 26 {
        offset := 3;
      } else if nalu == 27 {
        offset := 4;
      }
      if offset >= length {
        return false;
      }
      var n := payload[i + offset] % 0x20;
      if n == 7 {
        return true;
      }
      i := i + length;
    }
    AheadEnd(payload, i, Offset(nalu));
    return false;
  }

  lemma {:induction false} AheadEnd(payload: seq<u8>, i: nat, offset: nat)
    requires i >= |payload|
    ensures !Ahead(payload, i, offset)
  {
  }

  lemma {:induction false} AheadStep(payload: seq<u8>, i: nat, offset: nat)
    requires i < |payload|
    ensures Ahead(payload, i, offset)
       <==> if i + 2 > |payload| || i + 2 + ReadBe16(payload, i) > |payload| || offset >= ReadBe16(payload, i) then false
            else payload[i + 2 + offset] % 0x20 == SPS || Ahead(payload, i + 2 + ReadBe16(payload, i), offset)
  {
    var p := payload[i..];
    if |p| >= 2 {
      assert ReadBe16(p, 0) == ReadBe16(payload, i);
    }
    if !Malformed(p, offset) {
      var n := ReadBe16(p, 0);
      FirstUnit(p, offset);
      assert p[2..2 + n][offset] == payload[i + 2 + offset];
      assert p[2 + n..] == payload[i + 2 + n..];
      if i + 2 + n == |payload| {
        assert payload[i + 2 + n..] == [];
      }
    }
  }

  lemma {:induction false} FirstUnit(p: seq<u8>, offset: nat)
    requires !Malformed(p, offset)
    ensures var n := ReadBe16(p, 0);
            HasSps(Units(p, offset), offset) <==> IsSps(p[2..2 + n], offset) || HasSps(Units(p[2 + n..], offset), offset)
  {
    var n := ReadBe16(p, 0);
    var us, later := Units(p, offset), Units(p[2 + n..], offset);
    if k :| 0 <= k < |later| && IsSps(later[k], offset) {
      assert us[k + 1] == later[k];
    }
    if IsSps(p[2..2 + n], offset) {
      assert us[0] == p[2..2 + n];
    }
  }

  // ---------------------------------------------------------------- packets as they are built

  /** Units each behind its length, as an aggregation packet carries them. */
  function Joined(us: seq<seq<u8>>): seq<u8>
    requires forall k :: 0 <= k < |us| ==> |us[k]| < 0x1_0000
  {
    if us == [] then [] else Be16(|us[0]|) + us[0] + Joined(us[1..])
  }

  /** Scanning finds the very units that were joined, whatever malformed bytes follow them. */
  lemma {:induction false} UnitsOfJoined(us: seq<seq<u8>>, junk: seq<u8>, offset: nat)
    requires forall k :: 0 <= k < |us| ==> offset < |us[k]| < 0x1_0000
    requires Malformed(junk, offset)
    ensures Units(Joined(us) + junk, offset) == us
    decreases |us|
  {
    var p := Joined(us) + junk;
    if us == [] {
      assert p == junk;
    } else {
      var n := |us[0]|;
      var later := Joined(us[1..]) + junk;
      assert p == Be16(n) + us[0] + later;
      assert ReadBe16(p, 0) == n;
      assert p[2..2 + n] == us[0] && p[2 + n..] == later;
      UnitsOfJoined(us[1..], junk, offset);
    }
  }

  /** An aggregation packet, STAP-A (24), STAP-B (25), MTAP16 (26) or MTAP24 (27), starts a key frame exactly
      when one of the well-formed units behind its header is an SPS (7). A STAP-A has one octet of header, the
      others three; in MTAPs three or four octets stand between a unit's length and its header. */
  lemma {:induction false} AggregateIff(header: seq<u8>, us: seq<seq<u8>>, junk: seq<u8>)
    requires header != [] && 24 <= header[0] % 0x20 <= 27 && |header| == if header[0] % 0x20 == 24 then 1 else 3
    requires var at := if header[0] % 0x20 == 26 then 3 else if header[0] % 0x20 == 27 then 4 else 0;
             && (forall k :: 0 <= k < |us| ==> at < |us[k]| < 0x1_0000)
             && (|junk| < 2 || ReadBe16(junk, 0) > |junk| - 2 || ReadBe16(junk, 0) <= at)
    ensures var at := if header[0] % 0x20 == 26 then 3 else if header[0] % 0x20 == 27 then 4 else 0;
            KeyFrame(header + Joined(us) + junk) <==> exists k :: 0 <= k < |us| && us[k][at] % 0x20 == 7
  {
    hide Joined, Ahead;
    var payload := header + Joined(us) + junk;
    assert payload[0] == header[0];
    AheadIff(payload, header, us, junk, Offset(header[0] % 0x20));
  }

  lemma {:induction false} AheadIff(payload: seq<u8>, header: seq<u8>, us: seq<seq<u8>>, junk: seq<u8>, at: nat)
    requires forall k :: 0 <= k < |us| ==> at < |us[k]| < 0x1_0000
    requires Malformed(junk, at) && payload == header + Joined(us) + junk
    ensures Ahead(payload, |header|, at) <==> exists k :: 0 <= k < |us| && us[k][at] % 0x20 == 7
  {
    hide Joined, Units;
    assert payload[|header|..] == Joined(us) + junk;
    UnitsOfJoined(us, junk, at);
    JoinedLength(us);
    if k :| 0 <= k < |us| && us[k][at] % 0x20 == 7 {
      assert IsSps(us[k], at);
    }
  }

  lemma {:induction false} JoinedLength(us: seq<seq<u8>>)
    requires forall k :: 0 <= k < |us| ==> |us[k]| < 0x1_0000
    ensures |Joined(us)| >= 2 * |us|
  {
    if us != [] { JoinedLength(us[1..]); }
  }

  /** Every aggregation packet that reaches behind its header is of that form, and a shorter one starts no
      key frame. */
  lemma {:induction false} Dissected(payload: seq<u8>) returns (us: seq<seq<u8>>, junk: seq<u8>)
    requires payload != [] && 24 <= payload[0] % 0x20 <= 27
    ensures var n, at := if payload[0] % 0x20 == 24 then 1 else 3, if payload[0] % 0x20 == 26 then 3 else if payload[0] % 0x20 == 27 then 4 else 0;
            if |payload| < n then !KeyFrame(payload)
            else
              && (forall k :: 0 <= k < |us| ==> at < |us[k]| < 0x1_0000)
              && (|junk| < 2 || ReadBe16(junk, 0) > |junk| - 2 || ReadBe16(junk, 0) <= at)
              && payload == payload[..n] + Joined(us) + junk
  {
    var n, at := Start(payload[0] % 0x20), Offset(payload[0] % 0x20);
    us, junk := [], [];
    if |payload| >= n {
      us := Units(payload[n..], at);
      junk := Joins(payload[n..], at);
    }
  }

  lemma {:induction false} Joins(p: seq<u8>, offset: nat) returns (junk: seq<u8>)
    ensures Joined(Units(p, offset)) + junk == p && Malformed(junk, offset)
    decreases |p|
  {
    junk := p;
    if !Malformed(p, offset) {
      hide Be16, ReadBe16;
      var n := ReadBe16(p, 0);
      junk := Joins(p[2 + n..], offset);
      LengthBack(p);
      assert p == p[..2] + p[2..2 + n] + p[2 + n..];
      assert Units(p, offset)[1..] == Units(p[2 + n..], offset);
    }
  }

  lemma {:induction false} LengthBack(p: seq<u8>)
    requires |p| >= 2
    ensures Be16(ReadBe16(p, 0)) == p[..2]
  {
  }

  /** A single unit starts a key frame exactly when it is an IDR slice (5), and a fragment (28 or 29) exactly
      when it has the start bit set and is one of an SPS (7). No other payload does, aggregation packets
      aside. */
  lemma {:induction false} UnitOrFragmentIff(payload: seq<u8>)
    requires payload == [] || !(24 <= payload[0] % 0x20 <= 27)
    ensures KeyFrame(payload)
       <==> payload != [] && (payload[0] % 0x20 == 5
              || (28 <= payload[0] % 0x20 <= 29 && |payload| >= 2 && payload[1] >= 0x80 && payload[1] % 0x20 == 7))
  {
  }
}
