/**
 The MIPS-I instruction word and its bit fields. A word is an integer in
 [0, 2^32); a field is read the way the source reads it, `(w & mask) >> shift`,
 which on a non-negative integer is `(w / 2^shift) % 2^width`.

 R-type layout, the one every other view is cut from:

   31..26 primary | 25..21 rs | 20..16 rt | 15..11 rd | 10..6 shamt | 5..0 funct
 */
module Fields {
  import opened Arithmetic

  type Word = w: int | 0 <= w < 0x1_0000_0000

  /** Bits 31:26, the primary opcode. */
  function Primary(w: Word): (r: nat)
    ensures r < 64
  {
    w / 0x400_0000
  }

  /** Bits 25:21, the rs register index. */
  function Rs(w: Word): (r: nat)
    ensures r < 32
  {
    (w / 0x20_0000) % 32
  }

  /** Bits 20:16, the rt register index (also the bXXz discriminator and the cop branch type). */
  function Rt(w: Word): (r: nat)
    ensures r < 32
  {
    (w / 0x1_0000) % 32
  }

  /** Bits 15:11, the rd register index. */
  function Rd(w: Word): (r: nat)
    ensures r < 32
  {
    (w / 0x800) % 32
  }

  /** Bits 10:6, the shift amount. */
  function Shamt(w: Word): (r: nat)
    ensures r < 32
  {
    (w / 0x40) % 32
  }

  /** Bits 5:0, the secondary opcode (function field). */
  function Funct(w: Word): (r: nat)
    ensures r < 64
  {
    w % 64
  }

  /** Bits 15:0, the 16-bit immediate as an unsigned value. */
  function Low16(w: Word): (r: nat)
    ensures r < 0x1_0000
  {
    w % 0x1_0000
  }

  /** Bits 25:0, the jump target field. */
  function Low26(w: Word): (r: nat)
    ensures r < 0x400_0000
  {
    w % 0x400_0000
  }

  /** Bits 24:0, the opaque coprocessor command. */
  function Low25(w: Word): (r: nat)
    ensures r < 0x200_0000
  {
    w % 0x200_0000
  }

  /** Bits 25:6, the syscall/break code. */
  function Code20(w: Word): (r: nat)
    ensures r < 0x10_0000
  {
    (w / 0x40) % 0x10_0000
  }

  /** Bit 25, set on a coprocessor execute command. */
  function ExecBit(w: Word): (r: nat)
    ensures r < 2
  {
    (w / 0x200_0000) % 2
  }

  /** Bits 24:21, the coprocessor discriminator. */
  function CopDiscriminator(w: Word): (r: nat)
    ensures r < 16
  {
    (w / 0x20_0000) % 16
  }

  /**
   Two's-complement reading of a 16-bit pattern, as `ctypes.c_int16(w).value`
   does: the unique value in [-2^15, 2^15) congruent to `u` modulo 2^16.
   */
  function SignExtend16(u: nat): (r: int)
    requires u < 0x1_0000
    ensures -0x8000 <= r < 0x8000
    ensures r % 0x1_0000 == u
  {
    if u < 0x8000 then u else u - 0x1_0000
  }

  /** A signed 16-bit value survives truncation to 16 bits and sign extension. */
  lemma SignExtendTruncate(v: int)
    requires -0x8000 <= v < 0x8000
    ensures SignExtend16(v % 0x1_0000) == v
  {
  }

  /** Assembles a word from the six R-type fields. */
  function Pack(p: nat, s: nat, t: nat, d: nat, h: nat, f: nat): (w: Word)
    requires p < 64 && s < 32 && t < 32 && d < 32 && h < 32 && f < 64
    ensures Primary(w) == p && Rs(w) == s && Rt(w) == t && Rd(w) == d && Shamt(w) == h && Funct(w) == f
  {
    var w := p * 0x400_0000 + s * 0x20_0000 + t * 0x1_0000 + d * 0x800 + h * 0x40 + f;
    PackFields(p, s, t, d, h, f);
    w
  }

  lemma PackFields(p: nat, s: nat, t: nat, d: nat, h: nat, f: nat)
    requires p < 64 && s < 32 && t < 32 && d < 32 && h < 32 && f < 64
    ensures var w := p * 0x400_0000 + s * 0x20_0000 + t * 0x1_0000 + d * 0x800 + h * 0x40 + f;
      && 0 <= w < 0x1_0000_0000
      && w / 0x400_0000 == p
      && (w / 0x20_0000) % 32 == s
      && (w / 0x1_0000) % 32 == t
      && (w / 0x800) % 32 == d
      && (w / 0x40) % 32 == h
      && w % 64 == f
  {
    var w := p * 0x400_0000 + s * 0x20_0000 + t * 0x1_0000 + d * 0x800 + h * 0x40 + f;
    var low6 := f;
    var low11 := h * 0x40 + low6;
    var low16 := d * 0x800 + low11;
    var low21 := t * 0x1_0000 + low16;
    var low26 := s * 0x20_0000 + low21;
    assert w == p * 0x400_0000 + low26;
    assert w / 0x20_0000 == p * 32 + s;
    assert w / 0x1_0000 == (p * 32 + s) * 32 + t;
    assert w / 0x800 == ((p * 32 + s) * 32 + t) * 32 + d;
    assert w / 0x40 == (((p * 32 + s) * 32 + t) * 32 + d) * 32 + h;
  }

  /** The quotients by the field boundaries nest: each is the next one times 32 plus a field. */
  lemma Quotients(w: Word)
    ensures w / 0x20_0000 == Primary(w) * 32 + Rs(w)
    ensures w / 0x1_0000 == (w / 0x20_0000) * 32 + Rt(w)
    ensures w / 0x800 == (w / 0x1_0000) * 32 + Rd(w)
    ensures w / 0x40 == (w / 0x800) * 32 + Shamt(w)
    ensures w == (w / 0x40) * 64 + Funct(w)
  {
    DivDiv(w, 0x20_0000, 32);
    DivDiv(w, 0x1_0000, 32);
    DivDiv(w, 0x800, 32);
    DivDiv(w, 0x40, 32);
  }

  /**
   Every word is the sum of its six R-type fields in place, and each wider view
   (16-bit immediate, jump target, exception code, coprocessor command and
   discriminator, execute bit) is the corresponding sum of R-type fields.
   */
  lemma Decompose(w: Word)
    ensures w == Pack(Primary(w), Rs(w), Rt(w), Rd(w), Shamt(w), Funct(w))
    ensures Low16(w) == Rd(w) * 0x800 + Shamt(w) * 0x40 + Funct(w)
    ensures Low26(w) == Rs(w) * 0x20_0000 + Rt(w) * 0x1_0000 + Low16(w)
    ensures Code20(w) == Rs(w) * 0x8000 + Rt(w) * 0x400 + Rd(w) * 0x20 + Shamt(w)
    ensures ExecBit(w) == Rs(w) / 16
    ensures CopDiscriminator(w) == Rs(w) % 16
    ensures Low25(w) == CopDiscriminator(w) * 0x20_0000 + Rt(w) * 0x1_0000 + Low16(w)
  {
    Quotients(w);
    PackSum(w);
    Low16Sum(w);
    Low26Sum(w);
    Code20Sum(w);
    CopSums(w);
  }

  lemma PackSum(w: Word)
    ensures w == Pack(Primary(w), Rs(w), Rt(w), Rd(w), Shamt(w), Funct(w))
  {
    Quotients(w);
  }

  lemma Low16Sum(w: Word)
    ensures Low16(w) == Rd(w) * 0x800 + Shamt(w) * 0x40 + Funct(w)
  {
    Quotients(w);
    DivDiv(w, 0x40, 0x400);
    DivDiv(w, 0x800, 32);
    assert (w / 0x40) % 0x400 == ((w / 0x40) / 32 % 32) * 32 + (w / 0x40) % 32 by {
      DivDiv(w / 0x40, 32, 32);
    }
    DivDiv(w / 0x40, 32, 1);
    assert w % 0x1_0000 == ((w / 0x40) % 0x400) * 0x40 + w % 0x40 by {
      DivDiv(w, 0x40, 0x400);
    }
    assert (w / 0x40) / 32 == w / 0x800 by {
      DivDiv(w, 0x40, 32);
    }
  }

  lemma Low26Sum(w: Word)
    ensures Low26(w) == Rs(w) * 0x20_0000 + Rt(w) * 0x1_0000 + Low16(w)
  {
    assert w % 0x400_0000 == ((w / 0x1_0000) % 0x400) * 0x1_0000 + w % 0x1_0000 by {
      DivDiv(w, 0x1_0000, 0x400);
    }
    var q := w / 0x1_0000;
    assert q % 0x400 == (q / 32 % 32) * 32 + q % 32 by {
      DivDiv(q, 32, 32);
    }
    assert q / 32 == w / 0x20_0000 by {
      DivDiv(w, 0x1_0000, 32);
    }
  }

  lemma Code20Sum(w: Word)
    ensures Code20(w) == Rs(w) * 0x8000 + Rt(w) * 0x400 + Rd(w) * 0x20 + Shamt(w)
  {
    var q := w / 0x40;
    assert q % 0x10_0000 == (q / 32 % 0x8000) * 32 + q % 32 by {
      DivDiv(q, 32, 0x8000);
    }
    assert q / 32 == w / 0x800 by { DivDiv(w, 0x40, 32); }
    var q1 := q / 32;
    assert q1 % 0x8000 == (q1 / 32 % 0x400) * 32 + q1 % 32 by {
      DivDiv(q1, 32, 0x400);
    }
    assert q1 / 32 == w / 0x1_0000 by { DivDiv(w, 0x800, 32); }
    var q2 := q1 / 32;
    assert q2 % 0x400 == (q2 / 32 % 32) * 32 + q2 % 32 by {
      DivDiv(q2, 32, 32);
    }
    assert q2 / 32 == w / 0x20_0000 by { DivDiv(w, 0x1_0000, 32); }
  }

  lemma CopSums(w: Word)
    ensures ExecBit(w) == Rs(w) / 16
    ensures CopDiscriminator(w) == Rs(w) % 16
    ensures Low25(w) == CopDiscriminator(w) * 0x20_0000 + Rt(w) * 0x1_0000 + Low16(w)
  {
    var q := w / 0x20_0000;
    DivDiv(w, 0x20_0000, 16);
    DivDiv(w, 0x1_0000, 32);
    DivDiv(q, 16, 2);
    DivUnique(q % 32, 16, q / 16 % 2, q % 16);
  }

  /** 2^k. */
  function Pow2(k: nat): (r: nat)
    ensures r >= 1
  {
    if k == 0 then 1 else 2 * Pow2(k - 1)
  }

  /**
   Python's `|` on non-negative integers: bitwise or, one binary digit at a time
   from the least significant end.
   */
  function Or(a: nat, b: nat): (r: nat)
    decreases a + b
  {
    if a == 0 then b
    else if b == 0 then a
    else 2 * Or(a / 2, b / 2) + (if a % 2 == 1 || b % 2 == 1 then 1 else 0)
  }

  /** Bitwise or is at least each operand and at most their sum. */
  lemma {:induction false} OrBounds(a: nat, b: nat)
    ensures a <= Or(a, b) && b <= Or(a, b) && Or(a, b) <= a + b
    decreases a + b
  {
    if a != 0 && b != 0 {
      OrBounds(a / 2, b / 2);
    }
  }

  /**
   Or-ing a value below 2^k into a multiple of 2^k sets disjoint bits, so it
   adds: the identity that turns the source's `(x << k) | y` into arithmetic.
   */
  lemma {:induction false} OrDisjoint(q: nat, k: nat, y: nat)
    requires y < Pow2(k)
    ensures Or(q * Pow2(k), y) == q * Pow2(k) + y
    decreases k
  {
    var x := q * Pow2(k);
    if k == 0 {
      assert y == 0;
    } else if x != 0 && y != 0 {
      var p := Pow2(k - 1);
      assert x == (q * p) * 2;
      assert x / 2 == q * p && x % 2 == 0;
      assert y / 2 < p;
      OrDisjoint(q, k - 1, y / 2);
      assert Or(x, y) == 2 * (q * p + y / 2) + y % 2;
    }
  }

  /** Or with zero changes nothing, on either side. */
  lemma OrZero(a: nat)
    ensures Or(a, 0) == a && Or(0, a) == a
  {
  }

  /** The field boundaries as powers of two. */
  lemma Pow2Constants()
    ensures Pow2(6) == 0x40 && Pow2(11) == 0x800 && Pow2(16) == 0x1_0000
    ensures Pow2(21) == 0x20_0000 && Pow2(25) == 0x200_0000 && Pow2(26) == 0x400_0000
  {
  }

  /** `Or` adds whenever the right operand fits below the trailing zeros of the left one. */
  lemma OrAdd(x: nat, k: nat, y: nat)
    requires x % Pow2(k) == 0 && y < Pow2(k)
    ensures Or(x, y) == x + y
  {
    var q := x / Pow2(k);
    assert x == q * Pow2(k);
    OrDisjoint(q, k, y);
  }

  /** A 16-bit value split into the rd, shamt and funct fields it occupies. */
  lemma SplitLow16(u: nat)
    requires u < 0x1_0000
    ensures u == (u / 0x800) * 0x800 + ((u / 0x40) % 32) * 0x40 + u % 64
    ensures u / 0x800 < 32
  {
    DivDiv(u, 0x40, 32);
  }

  /** An I-type word: primary, rs, rt and a 16-bit immediate read back from the fields. */
  lemma ComposeImmediate(p: nat, s: nat, t: nat, u: nat)
    requires p < 64 && s < 32 && t < 32 && u < 0x1_0000
    ensures var w := p * 0x400_0000 + s * 0x20_0000 + t * 0x1_0000 + u;
      && 0 <= w < 0x1_0000_0000
      && Primary(w) == p && Rs(w) == s && Rt(w) == t && Low16(w) == u
      && ExecBit(w) == s / 16 && CopDiscriminator(w) == s % 16
      && w == Pack(p, s, t, u / 0x800, (u / 0x40) % 32, u % 64)
  {
    SplitLow16(u);
    var w := Pack(p, s, t, u / 0x800, (u / 0x40) % 32, u % 64);
    Decompose(w);
  }

  /** An R-type word whose bits 25:6 hold one 20-bit code. */
  lemma ComposeCode(p: nat, c: nat, f: nat)
    requires p < 64 && c < 0x10_0000 && f < 64
    ensures var w := p * 0x400_0000 + c * 0x40 + f;
      && 0 <= w < 0x1_0000_0000
      && Primary(w) == p && Code20(w) == c && Funct(w) == f
      && w == Pack(p, c / 0x8000, (c / 0x400) % 32, (c / 32) % 32, c % 32, f)
  {
    var s, t, d, h := c / 0x8000, (c / 0x400) % 32, (c / 32) % 32, c % 32;
    assert c == s * 0x8000 + t * 0x400 + d * 32 + h by {
      DivDiv(c, 32, 32);
      DivDiv(c, 0x400, 32);
      DivDiv(c, 32, 0x400);
    }
    var w := Pack(p, s, t, d, h, f);
    Decompose(w);
  }

  /** A J-type word: primary and a 26-bit target field. */
  lemma ComposeJump(p: nat, x: nat)
    requires p < 64 && x < 0x400_0000
    ensures var w := p * 0x400_0000 + x;
      && 0 <= w < 0x1_0000_0000
      && Primary(w) == p && Low26(w) == x
  {
    DivUnique(p * 0x400_0000 + x, 0x400_0000, p, x);
  }

  /** Every word is its primary field on top of its 26-bit jump field. */
  lemma SplitJump(w: Word)
    ensures w == Primary(w) * 0x400_0000 + Low26(w)
  {
  }

  /** A coprocessor execute word: primary, bit 25 set and a 25-bit command. */
  lemma ComposeExecute(p: nat, x: nat)
    requires p < 64 && x < 0x200_0000
    ensures var w := p * 0x400_0000 + 0x200_0000 + x;
      && 0 <= w < 0x1_0000_0000
      && Primary(w) == p && ExecBit(w) == 1 && Low25(w) == x
      && Low26(w) == 0x200_0000 + x
  {
    var w := p * 0x400_0000 + 0x200_0000 + x;
    ComposeJump(p, 0x200_0000 + x);
    DivDiv(w, 0x200_0000, 2);
    DivUnique(w % 0x400_0000, 0x200_0000, 1, x);
    var e, l := (w / 0x200_0000) % 2, w % 0x200_0000;
    DivUnique(w % 0x400_0000, 0x200_0000, e, l);
  }

  /** Every execute-flagged word is its primary, bit 25 and its 25-bit command. */
  lemma SplitExecute(w: Word)
    ensures w == Primary(w) * 0x400_0000 + ExecBit(w) * 0x200_0000 + Low25(w)
  {
    DivDiv(w, 0x200_0000, 2);
  }

  /** One step of `Or`, valid for every pair including zeros: the low bits or, the rest recurses. */
  lemma OrStep(x: nat, y: nat)
    ensures Or(x, y) == 2 * Or(x / 2, y / 2) + (if x % 2 == 1 || y % 2 == 1 then 1 else 0)
  {
    if x == 0 {
      assert Or(0, y / 2) == y / 2;
    } else if y == 0 {
      assert Or(x / 2, 0) == x / 2;
    }
  }

  /** `a << k`: `a` doubled `k` times. */
  function Shl(a: nat, k: nat): nat
  {
    if k == 0 then a else 2 * Shl(a, k - 1)
  }

  /** Shifting left by k multiplies by 2^k. */
  lemma {:induction false} ShlIsProduct(a: nat, k: nat)
    ensures Shl(a, k) == a * Pow2(k)
  {
    if k > 0 {
      ShlIsProduct(a, k - 1);
      assert a * Pow2(k) == 2 * (a * Pow2(k - 1));
    }
  }

  /**
   `Or` works field by field: or-ing two values cut at bit k gives the or of the
   high parts above the or of the low parts.
   */
  lemma {:induction false} OrConcat(a1: nat, b1: nat, a2: nat, b2: nat, k: nat)
    requires b1 < Pow2(k) && b2 < Pow2(k)
    ensures Or(Shl(a1, k) + b1, Shl(a2, k) + b2) == Shl(Or(a1, a2), k) + Or(b1, b2)
    decreases k
  {
    if k == 0 {
      assert b1 == 0 && b2 == 0;
    } else {
      assert b1 / 2 < Pow2(k - 1) && b2 / 2 < Pow2(k - 1);
      OrConcat(a1, b1 / 2, a2, b2 / 2, k - 1);
      OrConcatStep(a1, b1, a2, b2, k);
    }
  }

  /** The inductive step of `OrConcat`: the cut at bit k follows from the cut at bit k - 1 of the halves. */
  lemma OrConcatStep(a1: nat, b1: nat, a2: nat, b2: nat, k: nat)
    requires k >= 1
    requires Or(Shl(a1, k - 1) + b1 / 2, Shl(a2, k - 1) + b2 / 2) == Shl(Or(a1, a2), k - 1) + Or(b1 / 2, b2 / 2)
    ensures Or(Shl(a1, k) + b1, Shl(a2, k) + b2) == Shl(Or(a1, a2), k) + Or(b1, b2)
  {
    var x, y := Shl(a1, k) + b1, Shl(a2, k) + b2;
    assert x / 2 == Shl(a1, k - 1) + b1 / 2 && x % 2 == b1 % 2;
    assert y / 2 == Shl(a2, k - 1) + b2 / 2 && y % 2 == b2 % 2;
    OrStep(x, y);
    OrStep(b1, b2);
  }

  /** `OrDisjoint` with the power of two written out, as the encoders write it. */
  lemma OrAt(q: nat, m: nat, k: nat, y: nat)
    requires m == Pow2(k) && y < m
    ensures Or(q * m, y) == q * m + y
  {
    OrDisjoint(q, k, y);
  }

  /** `OrConcat` with the power of two written out. */
  lemma OrConcatAt(a1: nat, b1: nat, a2: nat, b2: nat, m: nat, k: nat)
    requires m == Pow2(k) && b1 < m && b2 < m
    ensures Or(a1 * m + b1, a2 * m + b2) == Or(a1, a2) * m + Or(b1, b2)
  {
    OrConcat(a1, b1, a2, b2, k);
    ShlIsProduct(a1, k);
    ShlIsProduct(a2, k);
    ShlIsProduct(Or(a1, a2), k);
  }

  /** The I-type word with primary `p`, rs `s`, rt `t` and 16-bit immediate `u`. */
  function Immediate(p: nat, s: nat, t: nat, u: nat): (w: Word)
    requires p < 64 && s < 32 && t < 32 && u < 0x1_0000
    ensures Primary(w) == p && Rs(w) == s && Rt(w) == t && Low16(w) == u
    ensures ExecBit(w) == s / 16 && CopDiscriminator(w) == s % 16
  {
    ComposeImmediate(p, s, t, u);
    p * 0x400_0000 + s * 0x20_0000 + t * 0x1_0000 + u
  }

  /** An I-type word is the R-type word whose rd, shamt and function fields make up its immediate. */
  lemma ImmediatePack(p: nat, s: nat, t: nat, d: nat, h: nat, f: nat)
    requires p < 64 && s < 32 && t < 32 && d < 32 && h < 32 && f < 64
    ensures d * 0x800 + h * 0x40 + f < 0x1_0000
    ensures Immediate(p, s, t, d * 0x800 + h * 0x40 + f) == Pack(p, s, t, d, h, f)
  {
  }

  /** The SPECIAL word with primary `p`, a 20-bit code in bits 25:6 and function `f`. */
  function CodeWord(p: nat, c: nat, f: nat): (w: Word)
    requires p < 64 && c < 0x10_0000 && f < 64
    ensures Primary(w) == p && Code20(w) == c && Funct(w) == f
  {
    ComposeCode(p, c, f);
    p * 0x400_0000 + c * 0x40 + f
  }

  /** The J-type word with primary `p` and 26-bit target `x`. */
  function JumpWord(p: nat, x: nat): (w: Word)
    requires p < 64 && x < 0x400_0000
    ensures Primary(w) == p && Low26(w) == x
  {
    ComposeJump(p, x);
    p * 0x400_0000 + x
  }

  /** The coprocessor execute word with primary `p` and 25-bit command `x`. */
  function ExecuteWord(p: nat, x: nat): (w: Word)
    requires p < 64 && x < 0x200_0000
    ensures Primary(w) == p && ExecBit(w) == 1 && Low25(w) == x
  {
    ComposeExecute(p, x);
    p * 0x400_0000 + 0x200_0000 + x
  }
}
