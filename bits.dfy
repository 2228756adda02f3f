/** Fixed-width helpers of the trie: Go's `uint8`, the bit selector
    `getBitUint32` (lpm/lpm.go) and the leading-bits truncation the prefix
    operations are built from. Bit positions are counted from the most
    significant bit, starting at 1, as the trie counts prefix lengths. */
module Bits {

  /** The values of a Go `uint8`. */
  type uint8 = x: int | 0 <= x < 256

  /** Go's `uint8` arithmetic: results wrap modulo 256 (Dafny's `%` is
      Euclidean, so a negative difference wraps as in two's complement). */
  function Wrap8(v: int): (r: uint8)
    ensures 0 <= v < 256 ==> r == v
    ensures -256 <= v < 0 ==> r == v + 256
  {
    v % 256
  }

  /** `getBitUint32(x, pos)` exactly as written: `x & (1 << (32 - pos)) != 0`
      with `32 - pos` computed in `uint8`; a `uint32` shifted by 32 or more
      is 0, so the test is false then. */
  function GetBitUint32(x: bv32, pos: bv8): bool {
    var shift := 32 - pos;
    shift < 32 && x & (1 << shift) != 0
  }

  /** The bit of `x` at position `pos` (1 = most significant): the top bit
      once the `pos - 1` bits above it are shifted out; there is no such bit
      at position 0 or beyond 32. `GetBitMatchesSource` shows this is
      `getBitUint32`. */
  function GetBit(x: bv32, pos: uint8): (r: bool)
    ensures r ==> 1 <= pos <= 32
    decreases pos
  {
    if pos == 0 || pos > 32 then false
    else if pos == 1 then x & 0x8000_0000 != 0
    else GetBit(x << 1, pos - 1)
  }

  lemma ShiftOutTopBit(x: bv32, p: bv8)
    requires 2 <= p <= 32
    ensures GetBitUint32(x << 1, p - 1) == GetBitUint32(x, p)
  {}

  /** `GetBit` is `getBitUint32` on every `uint8` position, including 0 and
      the positions beyond 32 where the shifted mask vanishes. */
  lemma {:induction false} GetBitMatchesSource(x: bv32, p: bv8)
    ensures GetBit(x, p as int) == GetBitUint32(x, p)
    decreases p
  {
    if 2 <= p <= 32 {
      ShiftOutTopBit(x, p);
      GetBitMatchesSource(x << 1, p - 1);
      assert (p - 1) as int == p as int - 1;
    }
  }

  /** `getBitUint32` is false at position 0 and at every position beyond 32. */
  lemma GetBitUint32OutOfRange(x: bv32, p: bv8)
    requires p == 0 || p > 32
    ensures !GetBitUint32(x, p)
  {}

  lemma LowestBit(y: bv32)
    ensures GetBit(y, 32) <==> y & 1 != 0
  {
    GetBitMatchesSource(y, 32);
  }

  lemma {:induction false} ZeroHasNoBits(k: uint8)
    ensures !GetBit(0, k)
    decreases k
  {
    if 1 < k <= 32 {
      ZeroHasNoBits(k - 1);
    }
  }

  /** A word whose top bit is `top` followed by the first 31 bits of
      `rest`. */
  function JoinTop(top: bool, rest: bv32): bv32 {
    (if top then 0x8000_0000 else 0) | (rest >> 1)
  }

  /** `x` with every bit after the first `c` cleared, built one leading bit
      at a time. */
  function KeepLeading(x: bv32, c: nat): bv32
    requires c <= 32
    decreases c
  {
    if c == 0 then 0 else JoinTop(GetBit(x, 1), KeepLeading(x << 1, c - 1))
  }

  lemma JoinTopFirst(top: bool, rest: bv32)
    ensures GetBit(JoinTop(top, rest), 1) == top
  {}

  lemma JoinTopShift(top: bool, rest: bv32)
    requires rest & 1 == 0
    ensures JoinTop(top, rest) << 1 == rest
  {}

  lemma JoinTopLater(top: bool, rest: bv32, k: uint8)
    requires 2 <= k <= 32 && rest & 1 == 0
    ensures GetBit(JoinTop(top, rest), k) == GetBit(rest, k - 1)
  {
    JoinTopShift(top, rest);
  }

  /** Bit by bit, `KeepLeading(x, c)` is `x` up to position `c` and zero
      after it. */
  lemma {:induction false} KeepLeadingBits(x: bv32, c: nat, k: uint8)
    requires c <= 32
    ensures GetBit(KeepLeading(x, c), k) <==> k <= c && GetBit(x, k)
    decreases c
  {
    if c == 0 {
      ZeroHasNoBits(k);
    } else {
      var rest := KeepLeading(x << 1, c - 1);
      if k == 1 {
        JoinTopFirst(GetBit(x, 1), rest);
      } else if 2 <= k <= 32 {
        KeepLeadingBits(x << 1, c - 1, 32);
        LowestBit(rest);
        JoinTopLater(GetBit(x, 1), rest, k);
        KeepLeadingBits(x << 1, c - 1, k - 1);
      }
    }
  }

  lemma ShiftedAgree(x: bv32, y: bv32, x': bv32, y': bv32, c: nat)
    requires 1 <= c <= 32 && x' == x << 1 && y' == y << 1
    requires forall k: uint8 :: 1 <= k <= c ==> GetBit(x, k) == GetBit(y, k)
    ensures forall k: uint8 :: 1 <= k <= c - 1 ==> GetBit(x', k) == GetBit(y', k)
    ensures GetBit(x, 1) == GetBit(y, 1)
  {
    forall k: uint8 | 1 <= k <= c - 1
      ensures GetBit(x', k) == GetBit(y', k)
    {
      assert GetBit(x, k + 1) == GetBit(y, k + 1);
    }
  }

  lemma KeepLeadingStep(x: bv32, y: bv32, c: nat)
    requires 1 <= c <= 32
    requires GetBit(x, 1) == GetBit(y, 1)
    requires KeepLeading(x << 1, c - 1) == KeepLeading(y << 1, c - 1)
    ensures KeepLeading(x, c) == KeepLeading(y, c)
  {}

  /** The first `c` bits determine `KeepLeading(_, c)`. */
  lemma {:induction false} LeadingBitsDetermine(x: bv32, y: bv32, c: nat)
    requires c <= 32
    requires forall k: uint8 :: 1 <= k <= c ==> GetBit(x, k) == GetBit(y, k)
    ensures KeepLeading(x, c) == KeepLeading(y, c)
    decreases c
  {
    if c > 0 {
      ShiftedAgree(x, y, x << 1, y << 1, c);
      LeadingBitsDetermine(x << 1, y << 1, c - 1);
      KeepLeadingStep(x, y, c);
    }
  }

  /** The netmask of a length: its first `c` bits set, one bit at a time. */
  function Netmask(c: nat): bv32
    requires c <= 32
    decreases c
  {
    if c == 0 then 0 else JoinTop(true, Netmask(c - 1))
  }

  lemma MaskStep(x: bv32, top: bool, m: bv32)
    requires top == (x & 0x8000_0000 != 0)
    ensures JoinTop(top, (x << 1) & m) == x & JoinTop(true, m)
  {}

  /** `KeepLeading` is masking with the netmask. */
  lemma {:induction false} KeepLeadingIsMasking(x: bv32, c: nat)
    requires c <= 32
    ensures KeepLeading(x, c) == x & Netmask(c)
    decreases c
  {
    if c > 0 {
      KeepLeadingIsMasking(x << 1, c - 1);
      MaskStep(x, GetBit(x, 1), Netmask(c - 1));
    }
  }

  /** The netmask the usual way: all ones shifted left by the number of
      host bits. */
  function PrefixMask(m: bv8): bv32
    requires m <= 32
  {
    if m == 0 then 0 else 0xFFFF_FFFF << (32 - m)
  }

  lemma NetmaskClosedStep(m: bv8, prev: bv32)
    requires 1 <= m <= 32
    requires prev == PrefixMask(m - 1)
    ensures JoinTop(true, prev) == PrefixMask(m)
  {}

  /** The bit-by-bit netmask is the shifted one. */
  lemma {:induction false} NetmaskClosed(c: nat, m: bv8)
    requires c <= 32 && m as int == c
    ensures Netmask(c) == PrefixMask(m)
    decreases c
  {
    if c > 0 {
      assert (m - 1) as int == c - 1;
      NetmaskClosed(c - 1, m - 1);
      NetmaskClosedStep(m, Netmask(c - 1));
    }
  }
}
