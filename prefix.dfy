/** IPv4 CIDR prefixes (section 3.1 of RFC 4632): a 32-bit address and a
    length from 0 to 32. The trie imports `net.Prefix` for these; that
    package is not part of this model, so its `Addr`, `Pfxlen`, `Contains`
    and `GetSupernet` are defined here from their documented meaning. */
module Prefixes {
  import opened Bits

  /** A prefix length: a Go `uint8` between 0 and 32. */
  type PfxLen = l: int | 0 <= l <= 32

  datatype Prefix = Prefix(addr: bv32, len: PfxLen)

  /** The first `l` bits of `x` and `y` (counted from the top) are equal. */
  predicate Agree(x: bv32, y: bv32, l: PfxLen) {
    forall k: uint8 :: 1 <= k <= l ==> GetBit(x, k) == GetBit(y, k)
  }

  /** `a.Contains(b)`: `a` is `b` or a less specific prefix covering it — its
      length is at most `b`'s and the first `a.len` address bits agree. */
  predicate Contains(a: Prefix, b: Prefix) {
    a.len <= b.len && Agree(a.addr, b.addr, a.len)
  }

  /** A well-formed prefix: the address bits beyond the length are zero. */
  predicate Canonical(p: Prefix) {
    KeepLeading(p.addr, p.len) == p.addr
  }

  /** The number of leading bits, at most `l`, on which `x` and `y` agree,
      found by shortening the length one bit at a time. */
  function CommonLen(x: bv32, y: bv32, l: PfxLen): (r: PfxLen)
    ensures r <= l
    decreases l
  {
    if Agree(x, y, l) then l else CommonLen(x, y, l - 1)
  }

  function Min(a: PfxLen, b: PfxLen): PfxLen {
    if a <= b then a else b
  }

  /** `a.GetSupernet(b)`: the prefix made of the leading bits `a` and `b`
      share (never more than the shorter length), with the rest of the
      address zeroed. It is a well-formed prefix containing both. */
  function GetSupernet(a: Prefix, b: Prefix): (r: Prefix)
    ensures Contains(r, a) && Contains(r, b) && Canonical(r)
  {
    var c := CommonLen(a.addr, b.addr, Min(a.len, b.len));
    CommonLenSpec(a.addr, b.addr, Min(a.len, b.len));
    KeepLeadingAgrees(a.addr, c);
    KeepLeadingCanonical(a.addr, c);
    AgreeTransitive(KeepLeading(a.addr, c), a.addr, b.addr, c);
    Prefix(KeepLeading(a.addr, c), c)
  }

  // ---------------------------------------------------------------------
  // Containment

  lemma AgreeTransitive(x: bv32, y: bv32, z: bv32, l: PfxLen)
    requires Agree(x, y, l) && Agree(y, z, l)
    ensures Agree(x, z, l)
  {
    forall k: uint8 | 1 <= k <= l
      ensures GetBit(x, k) == GetBit(z, k)
    {
      assert GetBit(x, k) == GetBit(y, k);
    }
  }

  /** Containment is transitive. */
  lemma ContainsTransitive(a: Prefix, b: Prefix, c: Prefix)
    requires Contains(a, b) && Contains(b, c)
    ensures Contains(a, c)
  {
    forall k: uint8 | 1 <= k <= a.len
      ensures GetBit(a.addr, k) == GetBit(c.addr, k)
    {
      assert GetBit(a.addr, k) == GetBit(b.addr, k);
    }
  }

  /** Two prefixes covering a common prefix lie on one chain: the shorter
      contains the longer. */
  lemma CoveringPrefixesNest(a: Prefix, b: Prefix, n: Prefix)
    requires Contains(a, n) && Contains(b, n)
    ensures Contains(a, b) || Contains(b, a)
    ensures a.len <= b.len ==> Contains(a, b)
  {
    if a.len <= b.len {
      forall k: uint8 | 1 <= k <= a.len
        ensures GetBit(a.addr, k) == GetBit(b.addr, k)
      {
        assert GetBit(a.addr, k) == GetBit(n.addr, k);
      }
    } else {
      forall k: uint8 | 1 <= k <= b.len
        ensures GetBit(b.addr, k) == GetBit(a.addr, k)
      {
        assert GetBit(b.addr, k) == GetBit(n.addr, k);
      }
    }
  }

  /** Two well-formed prefixes that contain each other are equal. */
  lemma ContainsAntisymmetric(a: Prefix, b: Prefix)
    requires Canonical(a) && Canonical(b)
    requires Contains(a, b) && Contains(b, a)
    ensures a == b
  {
    LeadingBitsDetermine(a.addr, b.addr, a.len);
  }

  // ---------------------------------------------------------------------
  // Common length and supernet

  /** `CommonLen` is the longest agreement up to its bound: the addresses
      agree that far and, below the bound, differ on the very next bit. */
  lemma {:induction false} CommonLenSpec(x: bv32, y: bv32, l: PfxLen)
    ensures Agree(x, y, CommonLen(x, y, l))
    ensures CommonLen(x, y, l) < l ==>
      GetBit(x, CommonLen(x, y, l) + 1) != GetBit(y, CommonLen(x, y, l) + 1)
    decreases l
  {
    if !Agree(x, y, l) {
      CommonLenSpec(x, y, l - 1);
      if CommonLen(x, y, l - 1) == l - 1 {
        var k: uint8 :| 1 <= k <= l && GetBit(x, k) != GetBit(y, k);
        assert k == l;
      }
    }
  }

  /** `CommonLen` is determined by the first disagreement: if the
      addresses agree on `c` bits and differ on the next, below the bound,
      the common length is `c`. */
  lemma {:induction false} CommonLenIs(x: bv32, y: bv32, l: PfxLen, c: PfxLen)
    requires c < l && Agree(x, y, c) && GetBit(x, c + 1) != GetBit(y, c + 1)
    ensures CommonLen(x, y, l) == c
    decreases l
  {
    assert !Agree(x, y, l) by {
      assert GetBit(x, c + 1) != GetBit(y, c + 1);
    }
    if c < l - 1 {
      CommonLenIs(x, y, l - 1, c);
    }
  }

  /** Addresses that agree on `c` bits, within the bound, have a common
      length of at least `c`. */
  lemma {:induction false} CommonLenAtLeast(x: bv32, y: bv32, l: PfxLen, c: PfxLen)
    requires c <= l && Agree(x, y, c)
    ensures c <= CommonLen(x, y, l)
    decreases l
  {
    if !Agree(x, y, l) {
      CommonLenAtLeast(x, y, l - 1, c);
    }
  }

  lemma KeepLeadingAgrees(x: bv32, c: PfxLen)
    ensures Agree(KeepLeading(x, c), x, c)
  {
    forall k: uint8 | 1 <= k <= c
      ensures GetBit(KeepLeading(x, c), k) == GetBit(x, k)
    {
      KeepLeadingBits(x, c, k);
    }
  }

  /** The leading-bits truncation is well formed. */
  lemma KeepLeadingCanonical(x: bv32, c: PfxLen)
    ensures Canonical(Prefix(KeepLeading(x, c), c))
  {
    var y := KeepLeading(x, c);
    KeepLeadingAgrees(x, c);
    LeadingBitsDetermine(y, x, c);
  }

  /** `GetSupernet` is the most specific common cover: every prefix that
      contains both arguments contains it. */
  lemma SupernetIsLeastCommon(a: Prefix, b: Prefix, q: Prefix)
    requires Contains(q, a) && Contains(q, b)
    ensures Contains(q, GetSupernet(a, b))
  {
    var m := Min(a.len, b.len);
    var s := GetSupernet(a, b);
    CommonLenSpec(a.addr, b.addr, m);
    if s.len < q.len {
      assert false;
    }
    KeepLeadingAgrees(a.addr, s.len);
    forall k: uint8 | 1 <= k <= q.len
      ensures GetBit(q.addr, k) == GetBit(s.addr, k)
    {
      assert GetBit(q.addr, k) == GetBit(a.addr, k);
    }
  }

  /** Two prefixes neither of which contains the other part ways right
      after their supernet: it is strictly shorter than both and their
      addresses differ on the next bit. */
  lemma SupernetSplits(a: Prefix, b: Prefix)
    requires !Contains(a, b) && !Contains(b, a)
    ensures GetSupernet(a, b).len < a.len && GetSupernet(a, b).len < b.len
    ensures GetBit(a.addr, GetSupernet(a, b).len + 1) != GetBit(b.addr, GetSupernet(a, b).len + 1)
  {
    var m := Min(a.len, b.len);
    CommonLenSpec(a.addr, b.addr, m);
    if CommonLen(a.addr, b.addr, m) == m {
      if a.len <= b.len {
        assert Contains(a, b);
      } else {
        forall k: uint8 | 1 <= k <= b.len
          ensures GetBit(b.addr, k) == GetBit(a.addr, k)
        {
          assert GetBit(a.addr, k) == GetBit(b.addr, k);
        }
        assert Contains(b, a);
      }
    }
  }

  /** Agreement on the first `l` bits is equality after truncation to
      `l` bits. */
  lemma AgreeIsTruncatedEquality(x: bv32, y: bv32, l: PfxLen)
    ensures Agree(x, y, l) <==> KeepLeading(x, l) == KeepLeading(y, l)
  {
    if Agree(x, y, l) {
      LeadingBitsDetermine(x, y, l);
    } else if KeepLeading(x, l) == KeepLeading(y, l) {
      KeepLeadingAgrees(x, l);
      KeepLeadingAgrees(y, l);
      assert false;
    }
  }

  /** Agreement on the first `l` bits is equality under the netmask of
      length `l`. */
  lemma AgreeIsMasked(x: bv32, y: bv32, l: PfxLen)
    ensures Agree(x, y, l) <==> x & Netmask(l) == y & Netmask(l)
  {
    AgreeIsTruncatedEquality(x, y, l);
    KeepLeadingIsMasking(x, l);
    KeepLeadingIsMasking(y, l);
  }

  /** `Contains` is the usual netmask test: `a` is not longer than `b` and
      the addresses agree under `a`'s netmask. */
  lemma ContainsIsMaskTest(a: Prefix, b: Prefix)
    ensures Contains(a, b) <==> a.len <= b.len && a.addr & Netmask(a.len) == b.addr & Netmask(a.len)
  {
    AgreeIsMasked(a.addr, b.addr, a.len);
  }

  /** The supernet does not depend on the order of its arguments. */
  lemma SupernetSymmetric(a: Prefix, b: Prefix)
    ensures GetSupernet(a, b) == GetSupernet(b, a)
  {
    var s, t := GetSupernet(a, b), GetSupernet(b, a);
    SupernetIsLeastCommon(a, b, t);
    SupernetIsLeastCommon(b, a, s);
    ContainsAntisymmetric(s, t);
  }
}
