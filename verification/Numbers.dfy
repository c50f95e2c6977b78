/** Fixed-width integers of the Rust source, written as bounded mathematical integers, the bit
    operations the source applies to them, and the big-endian byte forms of the wire formats. */
module Numbers {

  type u8 = x: int | 0 <= x < 0x100
  type u16 = x: int | 0 <= x < 0x1_0000
  type u32 = x: int | 0 <= x < 0x1_0000_0000

  /** Serial-number subtraction: the difference modulo the width. */
  function Sub16(a: int, b: int): u16 { (a - b) % 0x1_0000 }
  function Sub32(a: int, b: int): u32 { (a - b) % 0x1_0000_0000 }

  /** Rust's integer division, which truncates toward zero. */
  function TruncDiv(a: int, b: int): int
    requires b > 0
  {
    if a >= 0 then a / b else -((-a) / b)
  }

  function Be16(x: u16): seq<u8> { [x / 0x100, x % 0x100] }

  function ReadBe16(s: seq<u8>, at: nat): u16
    requires at + 2 <= |s|
  {
    var hi: int := s[at];
    hi * 0x100 + s[at + 1]
  }

  function Be32(x: u32): seq<u8> { Be16(x / 0x1_0000) + Be16(x % 0x1_0000) }

  function ReadBe32(s: seq<u8>, at: nat): u32
    requires at + 4 <= |s|
  {
    var hi: int := ReadBe16(s, at);
    hi * 0x1_0000 + ReadBe16(s, at + 2)
  }

  // ---------------------------------------------------------------- bits

  /** x << k, before any truncation. */
  function Shl(x: nat, k: nat): nat {
    if k == 0 then x else 2 * Shl(x, k - 1)
  }

  /** The k low bits of x. */
  function Low(x: nat, k: nat): nat {
    if k == 0 then 0 else 2 * Low(x / 2, k - 1) + x % 2
  }

  /** Bitwise or. */
  function BitOr(a: nat, b: nat): nat {
    if a == 0 && b == 0 then 0
    else 2 * BitOr(a / 2, b / 2) + (if a % 2 == 1 || b % 2 == 1 then 1 else 0)
  }

  lemma {:induction false} ShlTwice(x: nat, a: nat, b: nat)
    ensures Shl(Shl(x, a), b) == Shl(x, a + b)
  {
    if b > 0 { ShlTwice(x, a, b - 1); }
  }

  lemma {:induction false} ShlIsTimes(x: nat, k: nat)
    ensures Shl(x, k) == x * Shl(1, k)
  {
    if k > 0 { ShlIsTimes(x, k - 1); }
  }

  lemma {:induction false} Shl13(x: nat)
    ensures Shl(x, 13) == 0x2000 * x && Shl(x, 14) == 0x4000 * x && Shl(x, 15) == 0x8000 * x && Shl(x, 16) == 0x1_0000 * x
  {
    ShlIsTimes(x, 13);
    assert Shl(1, 13) == 0x2000;
  }

  lemma {:induction false} ShlAdds(x: nat, y: nat, k: nat)
    ensures Shl(x + y, k) == Shl(x, k) + Shl(y, k)
  {
    if k > 0 { ShlAdds(x, y, k - 1); }
  }

  lemma {:induction false} ShlMonotone(x: nat, y: nat, k: nat)
    requires x < y
    ensures Shl(x, k) < Shl(y, k)
  {
    if k > 0 { ShlMonotone(x, y, k - 1); }
  }

  lemma {:induction false} OrZero(a: nat)
    ensures BitOr(a, 0) == a
  {
    if a != 0 { OrZero(a / 2); }
  }

  lemma {:induction false} OrCommutes(a: nat, b: nat)
    ensures BitOr(a, b) == BitOr(b, a)
    decreases a + b
  {
    if a != 0 || b != 0 { OrCommutes(a / 2, b / 2); }
  }

  /** The low k bits of an or come from the operand that has any there. */
  lemma {:induction false} OrSplit(a: nat, b: nat, r: nat, k: nat)
    requires r < Shl(1, k)
    ensures BitOr(Shl(a, k), Shl(b, k) + r) == Shl(BitOr(a, b), k) + r
  {
    if k > 0 {
      OrSplit(a, b, r / 2, k - 1);
      if Shl(a, k) == 0 && Shl(b, k) + r == 0 {
        ShlZero(a, k);
        ShlZero(b, k);
      }
    }
  }

  lemma {:induction false} ShlZero(a: nat, k: nat)
    ensures Shl(a, k) == 0 <==> a == 0
  {
    if k > 0 { ShlZero(a, k - 1); }
  }

  /** Or-ing a number into the k free low bits adds it. */
  lemma {:induction false} OrAdds(q: nat, b: nat, k: nat)
    requires b < Shl(1, k)
    ensures BitOr(Shl(q, k), b) == Shl(q, k) + b
  {
    OrSplit(q, 0, b, k);
    ShlZero(0, k);
    OrZero(q);
  }

  /** The k low bits of an or with a multiple of 2^k are those of the other operand. */
  lemma {:induction false} OrLow(q: nat, b: nat, k: nat) returns (t: nat, u: nat, low: nat)
    ensures low < Shl(1, k)
    ensures b == Shl(u, k) + low && BitOr(Shl(q, k), b) == Shl(t, k) + low
  {
    if k == 0 {
      t, u, low := BitOr(q, b), b, 0;
    } else {
      t, u, low := OrLow(q, b / 2, k - 1);
      low := 2 * low + b % 2;
    }
  }

  lemma {:induction false} OrBound(a: nat, b: nat, k: nat)
    requires a < Shl(1, k) && b < Shl(1, k)
    ensures BitOr(a, b) < Shl(1, k)
  {
    if k > 0 { OrBound(a / 2, b / 2, k - 1); }
  }
}

module Wrappers {
  datatype Option<+T> = None | Some(value: T)

  datatype Result<+T, +E> = Ok(value: T) | Err(error: E)
}
