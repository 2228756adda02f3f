/** The insertion and exact lookup that lpm/lpm.go evidently intends, and
    the ordering they give. At every node the side is decided by the bit
    just after the node's own label: the root call of `LPM.Insert` already
    starts there, but as written `insertLow`/`insertHigh` pass `level + 1`
    down instead of the child's length plus one, `insertBefore` places the
    old node by the new prefix's bit instead of its own, `get` reads the
    bit at the node's length and turns low on a set bit, and a prefix
    equal to a dummy label is dropped instead of becoming a route. The
    corrected trie keeps every child strictly below its parent on the side
    of its own bit, so the longest-prefix match comes out least specific
    first, a repeated insert changes nothing, and lookup finds every
    stored route. Skips are carried along; no property here reads them. */
module Corrected {
  import opened Bits
  import opened Prefixes
  import opened Trie

  /** `b` lies on side `high` just below `a`: `a` contains it, it is
      strictly more specific, and its bit right after `a` is the side. */
  predicate Below(a: Prefix, b: Prefix, high: bool) {
    Contains(a, b) && a.len < b.len && GetBit(b.addr, a.len + 1) == high
  }

  /** Every child lies below its parent on its own side. */
  predicate Ordered(t: Tree) {
    t.Node? ==>
      Ordered(t.l) && Ordered(t.h) &&
      (t.l.Node? ==> Below(t.pfx, t.l.pfx, false)) &&
      (t.h.Node? ==> Below(t.pfx, t.h.pfx, true))
  }

  /** All node labels, dummy or not. */
  function Labels(t: Tree): set<Prefix> {
    if t.Nil? then {} else {t.pfx} + Labels(t.l) + Labels(t.h)
  }

  /** Strictly increasing prefix lengths: least specific first. */
  predicate Ascending(s: seq<Prefix>) {
    forall i, j :: 0 <= i < j < |s| ==> s[i].len < s[j].len
  }

  // ---------------------------------------------------------------------
  // Corrected operations

  /** `n.insert(pfx)` with the side read at the bit after the node's own
      label, and a dummy label equal to `p` turned into a route. */
  function FixedNodeInsert(n: Tree, p: Prefix): (r: Tree)
    requires n.Node?
    ensures r.Node?
    decreases n
  {
    if n.pfx == p then n.(dummy := false)
    else if !Contains(n.pfx, p) then
      if Contains(p, n.pfx) then FixedInsertBefore(n, p) else NewSuperNode(n, p)
    else if !GetBit(p.addr, n.pfx.len + 1) then
      n.(l := if n.l.Nil? then NewNode(p, Wrap8(p.len - n.pfx.len - 1), false) else FixedNodeInsert(n.l, p))
    else
      n.(h := if n.h.Nil? then NewNode(p, Wrap8(p.len - n.pfx.len - 1), false) else FixedNodeInsert(n.h, p))
  }

  /** `insertBefore` placing the old node by its own bit after `p`. */
  function FixedInsertBefore(n: Tree, p: Prefix): (r: Tree)
    requires n.Node?
    ensures r.Node? && r.pfx == p && !r.dummy
  {
    var moved := n.(skip := Wrap8(n.pfx.len - p.len - 1));
    var above := NewNode(p, Wrap8(n.skip - (n.pfx.len - p.len)), false);
    if !GetBit(n.pfx.addr, p.len + 1) then above.(l := moved) else above.(h := moved)
  }

  /** `LPM.Insert` with the corrected `insert`. */
  function FixedInserted(root: Tree, p: Prefix): (r: Tree)
    ensures r.Node?
  {
    if root.Nil? then NewNode(p, p.len, false) else FixedNodeInsert(root, p)
  }

  /** `get` reading the bit after the node's label, a set bit going high. */
  function FixedGetNode(t: Tree, p: Prefix): (r: Option<Tree>)
    ensures r.Some? ==> r.value.Node? && r.value.pfx == p && !r.value.dummy && p in Stored(t)
    decreases t
  {
    if t.Nil? then None
    else if t.pfx == p then (if t.dummy then None else Some(t))
    else if t.pfx.len > p.len then None
    else if GetBit(p.addr, t.pfx.len + 1) then FixedGetNode(t.h, p)
    else FixedGetNode(t.l, p)
  }

  // ---------------------------------------------------------------------
  // The ordering invariant

  lemma BelowTransfer(a: Prefix, b: Prefix, q: Prefix, high: bool)
    requires Below(a, b, high) && Contains(b, q)
    ensures Below(a, q, high)
  {
    ContainsTransitive(a, b, q);
    var k: uint8 := a.len + 1;
    assert GetBit(b.addr, k) == GetBit(q.addr, k);
  }

  lemma SameLengthContains(a: Prefix, b: Prefix)
    requires Contains(a, b) && a.len == b.len
    ensures Contains(b, a)
  {
    forall k: uint8 | 1 <= k <= b.len
      ensures GetBit(b.addr, k) == GetBit(a.addr, k)
    {
      assert GetBit(a.addr, k) == GetBit(b.addr, k);
    }
  }

  lemma {:induction false} StoredAreLabels(t: Tree)
    ensures Stored(t) <= Labels(t)
    decreases t
  {
    if t.Node? {
      StoredAreLabels(t.l);
      StoredAreLabels(t.h);
    }
  }

  /** In an ordered trie every label lies within the root's, and every
      label of a subtree lies below the root on that subtree's side. */
  lemma {:induction false} LabelsWithin(t: Tree)
    requires t.Node? && Ordered(t)
    ensures forall q :: q in Labels(t) ==> Contains(t.pfx, q)
    ensures forall q :: q in Labels(t.l) ==> Below(t.pfx, q, false)
    ensures forall q :: q in Labels(t.h) ==> Below(t.pfx, q, true)
    decreases t
  {
    if t.l.Node? {
      LabelsWithin(t.l);
      forall q | q in Labels(t.l)
        ensures Below(t.pfx, q, false)
      {
        BelowTransfer(t.pfx, t.l.pfx, q, false);
      }
    }
    if t.h.Node? {
      LabelsWithin(t.h);
      forall q | q in Labels(t.h)
        ensures Below(t.pfx, q, true)
      {
        BelowTransfer(t.pfx, t.h.pfx, q, true);
      }
    }
  }

  /** An ordered trie is nested. */
  lemma {:induction false} OrderedIsNested(t: Tree)
    requires Ordered(t)
    ensures Nested(t)
    decreases t
  {
    if t.Node? {
      OrderedIsNested(t.l);
      OrderedIsNested(t.h);
    }
  }

  // ---------------------------------------------------------------------
  // Corrected insertion: what it stores and the order it keeps

  /** The corrected `insert` stores exactly the old routes plus `p`. */
  lemma {:induction false} FixedInsertStored(n: Tree, p: Prefix)
    requires n.Node?
    ensures Stored(FixedNodeInsert(n, p)) == Stored(n) + {p}
    decreases n
  {
    if n.pfx == p {
    } else if !Contains(n.pfx, p) {
      if Contains(p, n.pfx) {
        SkipIsInformational(n, Wrap8(n.pfx.len - p.len - 1));
      } else {
        SuperNodeStored(n, p);
      }
    } else if !GetBit(p.addr, n.pfx.len + 1) {
      if n.l.Node? {
        FixedInsertStored(n.l, p);
      }
    } else {
      if n.h.Node? {
        FixedInsertStored(n.h, p);
      }
    }
  }

  /** Two prefixes below `q` on the same side agree on the bits up to and
      including the one after `q`. */
  lemma SameSideAgree(q: Prefix, a: Prefix, b: Prefix, high: bool)
    requires Below(q, a, high) && Below(q, b, high)
    ensures Agree(a.addr, b.addr, q.len + 1)
  {
    forall k: uint8 | 1 <= k <= q.len + 1
      ensures GetBit(a.addr, k) == GetBit(b.addr, k)
    {
      if k <= q.len {
        assert GetBit(q.addr, k) == GetBit(a.addr, k);
        assert GetBit(q.addr, k) == GetBit(b.addr, k);
      }
    }
  }

  /** The supernet of two prefixes below `q` on one side is below `q` on
      that side too. */
  lemma SupernetBelow(q: Prefix, n: Prefix, p: Prefix, high: bool)
    requires Below(q, n, high) && Below(q, p, high)
    ensures Below(q, GetSupernet(p, n), high)
  {
    var s := GetSupernet(p, n);
    SupernetIsLeastCommon(p, n, q);
    SameSideAgree(q, p, n, high);
    CommonLenAtLeast(p.addr, n.addr, Min(p.len, n.len), q.len + 1);
    var k: uint8 := q.len + 1;
    assert GetBit(s.addr, k) == GetBit(p.addr, k);
  }

  /** Whatever label the corrected `insert` puts in place of a node below
      `q`, it stays below `q` on the same side when `p` belongs there. */
  lemma FixedInsertRootBelow(n: Tree, p: Prefix, q: Prefix, high: bool)
    requires n.Node? && Below(q, n.pfx, high) && Below(q, p, high)
    ensures Below(q, FixedNodeInsert(n, p).pfx, high)
  {
    if n.pfx != p && !Contains(n.pfx, p) && !Contains(p, n.pfx) {
      SupernetBelow(q, n.pfx, p, high);
    }
  }

  lemma FixedInsertBeforeOrdered(n: Tree, p: Prefix)
    requires n.Node? && Ordered(n) && !Contains(n.pfx, p) && Contains(p, n.pfx)
    ensures Ordered(FixedInsertBefore(n, p))
  {
    if p.len == n.pfx.len {
      SameLengthContains(p, n.pfx);
    }
  }

  lemma SuperNodeOrdered(n: Tree, p: Prefix)
    requires n.Node? && Ordered(n) && !Contains(n.pfx, p) && !Contains(p, n.pfx)
    ensures Ordered(NewSuperNode(n, p))
  {
    SuperNodeShape(n, p);
    SupernetSplits(p, n.pfx);
  }

  /** A prefix that a well-formed label contains, and that differs from
      it, is strictly more specific. */
  lemma StrictlyBelow(a: Prefix, p: Prefix)
    requires Canonical(a) && Canonical(p) && Contains(a, p) && a != p
    ensures a.len < p.len
  {
    if a.len == p.len {
      SameLengthContains(a, p);
      ContainsAntisymmetric(a, p);
    }
  }

  /** The corrected `insert` of a well-formed prefix keeps a well-formed
      trie ordered. */
  lemma {:induction false} FixedInsertOrdered(n: Tree, p: Prefix)
    requires n.Node? && Ordered(n) && AllCanonical(n) && Canonical(p)
    ensures Ordered(FixedNodeInsert(n, p))
    decreases n
  {
    if n.pfx == p {
    } else if !Contains(n.pfx, p) {
      if Contains(p, n.pfx) {
        FixedInsertBeforeOrdered(n, p);
      } else {
        SuperNodeOrdered(n, p);
      }
    } else {
      StrictlyBelow(n.pfx, p);
      var high := GetBit(p.addr, n.pfx.len + 1);
      var child := if high then n.h else n.l;
      if child.Node? {
        FixedInsertOrdered(child, p);
        FixedInsertRootBelow(child, p, n.pfx, high);
      }
    }
  }

  /** The corrected `insert` of a well-formed prefix adds no malformed
      label. */
  lemma {:induction false} FixedInsertCanonical(n: Tree, p: Prefix)
    requires n.Node? && AllCanonical(n) && Canonical(p)
    ensures AllCanonical(FixedNodeInsert(n, p))
    decreases n
  {
    if n.pfx == p {
    } else if !Contains(n.pfx, p) {
      if Contains(p, n.pfx) {
        SkipIsInformational(n, Wrap8(n.pfx.len - p.len - 1));
      } else {
        SuperNodeCanonical(n, p);
      }
    } else if !GetBit(p.addr, n.pfx.len + 1) {
      if n.l.Node? {
        FixedInsertCanonical(n.l, p);
      }
    } else {
      if n.h.Node? {
        FixedInsertCanonical(n.h, p);
      }
    }
  }

  /** Corrected `LPM.Insert`: the routes are the old ones plus `p`, and a
      well-formed ordered trie stays well formed and ordered. */
  lemma FixedInsertedShape(root: Tree, p: Prefix)
    ensures Stored(FixedInserted(root, p)) == Stored(root) + {p}
    ensures Ordered(root) && AllCanonical(root) && Canonical(p) ==>
      Ordered(FixedInserted(root, p)) && AllCanonical(FixedInserted(root, p))
  {
    if root.Node? {
      FixedInsertStored(root, p);
      if Ordered(root) && AllCanonical(root) && Canonical(p) {
        FixedInsertOrdered(root, p);
        FixedInsertCanonical(root, p);
      }
    }
  }

  // ---------------------------------------------------------------------
  // Consequences of the order

  /** In an ordered trie a route that is already stored is found by the
      descent, so inserting it changes nothing. */
  lemma {:induction false} FixedInsertPresent(t: Tree, p: Prefix)
    requires t.Node? && Ordered(t) && p in Stored(t)
    ensures FixedNodeInsert(t, p) == t
    decreases t
  {
    LabelsWithin(t);
    StoredAreLabels(t.l);
    StoredAreLabels(t.h);
    if t.pfx != p {
      if p in Stored(t.l) {
        FixedInsertPresent(t.l, p);
      } else {
        FixedInsertPresent(t.h, p);
      }
    }
  }

  /** Corrected `LPM.Insert` is idempotent on the tree itself. */
  lemma FixedInsertIdempotent(root: Tree, p: Prefix)
    requires Ordered(root) && AllCanonical(root) && Canonical(p)
    ensures FixedInserted(FixedInserted(root, p), p) == FixedInserted(root, p)
  {
    FixedInsertedShape(root, p);
    FixedInsertPresent(FixedInserted(root, p), p);
  }

  /** The corrected `get` finds every stored route of an ordered trie, and
      only stored routes. */
  lemma {:induction false} FixedGetFinds(t: Tree, p: Prefix)
    requires Ordered(t)
    ensures FixedGetNode(t, p).Some? <==> p in Stored(t)
    decreases t
  {
    if t.Node? && p in Stored(t) {
      LabelsWithin(t);
      StoredAreLabels(t.l);
      StoredAreLabels(t.h);
      if t.pfx != p {
        if p in Stored(t.l) {
          FixedGetFinds(t.l, p);
        } else {
          FixedGetFinds(t.h, p);
        }
      }
    }
  }

  lemma AscendingPrepend(own: seq<Prefix>, m: seq<Prefix>, len: int)
    requires Ascending(m)
    requires forall q :: q in own ==> q.len == len
    requires |own| <= 1
    requires forall q :: q in m ==> len < q.len
    ensures Ascending(own + m)
  {
    var s := own + m;
    forall i, j | 0 <= i < j < |s|
      ensures s[i].len < s[j].len
    {
      if i < |own| {
        assert s[i] in own && s[j] in m;
      } else {
        assert s[i] == m[i - |own|] && s[j] == m[j - |own|];
      }
    }
  }

  lemma AscendingJoin(own: seq<Prefix>, ml: seq<Prefix>, mh: seq<Prefix>, len: int)
    requires Ascending(ml) && Ascending(mh) && (ml == [] || mh == [])
    requires forall q :: q in own ==> q.len == len
    requires |own| <= 1
    requires forall q :: q in ml ==> len < q.len
    requires forall q :: q in mh ==> len < q.len
    ensures Ascending(own + ml + mh)
  {
    if ml == [] {
      assert own + ml + mh == own + mh;
      AscendingPrepend(own, mh, len);
    } else {
      assert own + ml + mh == own + ml;
      AscendingPrepend(own, ml, len);
    }
  }

  /** The matches below a node all lie on one side: those in the low
      subtree have the needle's bit after the node clear, those in the
      high subtree have it set, and all are more specific than the node. */
  lemma MatchesOneSide(t: Tree, needle: Prefix)
    requires t.Node? && Ordered(t)
    ensures Matches(t.l, needle) == [] || Matches(t.h, needle) == []
    ensures forall q :: q in Matches(t.l, needle) ==> t.pfx.len < q.len
    ensures forall q :: q in Matches(t.h, needle) ==> t.pfx.len < q.len
  {
    LabelsWithin(t);
    StoredAreLabels(t.l);
    StoredAreLabels(t.h);
  }

  /** In an ordered trie the longest-prefix match lists its routes least
      specific first. */
  lemma {:induction false} MatchesAscending(t: Tree, needle: Prefix)
    requires Ordered(t)
    ensures Ascending(Matches(t, needle))
    decreases t
  {
    if t.Node? && !(t.pfx == needle && !t.dummy) && Contains(t.pfx, needle) {
      MatchesAscending(t.l, needle);
      MatchesAscending(t.h, needle);
      MatchesOneSide(t, needle);
      var own: seq<Prefix> := if t.dummy then [] else [t.pfx];
      MatchesStep(t, needle, own);
      AscendingJoin(own, Matches(t.l, needle), Matches(t.h, needle), t.pfx.len);
    }
  }

  /** Built by the corrected insertion from an empty table, the trie
      answers a longest-prefix match with exactly the stored routes that
      cover the needle, least specific first, and finds every stored
      route by exact lookup. */
  lemma FixedTrieAnswers(root: Tree, p: Prefix, needle: Prefix)
    requires Ordered(root) && AllCanonical(root) && Canonical(p)
    ensures var t := FixedInserted(root, p);
      Ascending(Matches(t, needle)) &&
      (forall q :: q in Matches(t, needle) <==> q in Stored(t) && Contains(q, needle)) &&
      (forall q :: FixedGetNode(t, q).Some? <==> q in Stored(root) + {p})
  {
    var t := FixedInserted(root, p);
    FixedInsertedShape(root, p);
    MatchesAscending(t, needle);
    OrderedIsNested(t);
    MatchesComplete(t, needle);
    forall q
      ensures FixedGetNode(t, q).Some? <==> q in Stored(root) + {p}
    {
      FixedGetFinds(t, q);
    }
  }
}
