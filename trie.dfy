/** The path-compressed binary prefix trie of lpm/lpm.go. A node holds a
    prefix, a `dummy` flag for synthetic branch labels that are not routes,
    an informational `skip` that no lookup reads, and a low and a high
    child. The insert helpers of the source return the node that takes
    the place of the one they were called on, except `insertChildren`,
    which returns nothing and fills in the fresh supernet node that
    `newSuperNode` then returns. No node is ever shared, so the tree is a
    value here: each helper returns the replacing subtree, and
    `InsertChildren` returns the filled-in node. */
module Trie {
  import opened Bits
  import opened Prefixes

  datatype Option<T> = None | Some(value: T)

  /** A node pointer: `Nil` is Go's nil. */
  datatype Tree = Nil | Node(skip: uint8, dummy: bool, pfx: Prefix, l: Tree, h: Tree)

  // ---------------------------------------------------------------------
  // Reference views of a tree

  /** The routes a tree holds: the labels of its non-dummy nodes. */
  function Stored(t: Tree): set<Prefix> {
    if t.Nil? then {}
    else (if t.dummy then {} else {t.pfx}) + Stored(t.l) + Stored(t.h)
  }

  /** The labels of the dummy nodes: branch points that are not routes. */
  function DummyLabels(t: Tree): set<Prefix> {
    if t.Nil? then {}
    else (if t.dummy then {t.pfx} else {}) + DummyLabels(t.l) + DummyLabels(t.h)
  }

  /** Each child's label lies within its parent's label. */
  predicate Nested(t: Tree) {
    t.Node? ==>
      Nested(t.l) && Nested(t.h) &&
      (t.l.Node? ==> Contains(t.pfx, t.l.pfx)) &&
      (t.h.Node? ==> Contains(t.pfx, t.h.pfx))
  }

  /** Every label is well formed (no address bits beyond its length). */
  predicate AllCanonical(t: Tree) {
    t.Node? ==> Canonical(t.pfx) && AllCanonical(t.l) && AllCanonical(t.h)
  }

  /** Every dummy node is a branch point: it has both children. */
  predicate DummiesFull(t: Tree) {
    t.Node? ==>
      (t.dummy ==> t.l.Node? && t.h.Node?) && DummiesFull(t.l) && DummiesFull(t.h)
  }

  // ---------------------------------------------------------------------
  // Insertion

  /** `newNode`: a childless node. */
  function NewNode(p: Prefix, skip: uint8, dummy: bool): (r: Tree)
    ensures r.Node? && r.l.Nil? && r.h.Nil? && r.pfx == p
    ensures Stored(r) == if dummy then {} else {p}
  {
    Node(skip, dummy, p, Nil, Nil)
  }

  /** `n.insert(pfx, level)`: an equal label (dummy or not) ends the
      insertion unchanged; a label that does not cover `p` gets `p` pushed
      above it or a dummy supernet beside it; otherwise the bit of `p` at
      `level` picks the child to descend into. */
  function NodeInsert(n: Tree, p: Prefix, level: uint8): (r: Tree)
    requires n.Node?
    ensures r.Node?
    ensures n.pfx == p ==> r == n
    decreases n, 2
  {
    if n.pfx == p then n
    else if !Contains(n.pfx, p) then
      if Contains(p, n.pfx) then InsertBefore(n, p, level) else NewSuperNode(n, p)
    else if !GetBit(p.addr, level) then InsertLow(n, p, level)
    else InsertHigh(n, p, level)
  }

  /** `insertLow`: a fresh leaf in an empty low slot, otherwise the low
      child is inserted into one level further down. */
  function InsertLow(n: Tree, p: Prefix, level: uint8): (r: Tree)
    requires n.Node?
    ensures r.Node? && r.l.Node?
    ensures r.skip == n.skip && r.dummy == n.dummy && r.pfx == n.pfx && r.h == n.h
    decreases n, 1
  {
    if n.l.Nil? then n.(l := NewNode(p, Wrap8(p.len - level), false))
    else n.(l := NodeInsert(n.l, p, Wrap8(level + 1)))
  }

  /** `insertHigh`: as `InsertLow`, on the high child. */
  function InsertHigh(n: Tree, p: Prefix, level: uint8): (r: Tree)
    requires n.Node?
    ensures r.Node? && r.h.Node?
    ensures r.skip == n.skip && r.dummy == n.dummy && r.pfx == n.pfx && r.l == n.l
    decreases n, 1
  {
    if n.h.Nil? then n.(h := NewNode(p, Wrap8(p.len - level), false))
    else n.(h := NodeInsert(n.h, p, Wrap8(level + 1)))
  }

  /** `newSuperNode`: a dummy node labelled with the supernet of `p` and
      the node's label, holding both. */
  function NewSuperNode(n: Tree, p: Prefix): (r: Tree)
    requires n.Node?
    ensures r.Node? && r.dummy && r.pfx == GetSupernet(p, n.pfx)
  {
    var s := GetSupernet(p, n.pfx);
    InsertChildren(NewNode(s, s.len, true), n, p)
  }

  /** `insertChildren`: the old subtree, then a leaf for the new prefix,
      each stored on the side given by its own bit just after the parent's
      length; a second store to the same side overwrites the first. */
  function InsertChildren(m: Tree, existing: Tree, added: Prefix): (r: Tree)
    requires m.Node? && existing.Node?
    ensures r.Node? && r.pfx == m.pfx && r.dummy == m.dummy && r.skip == m.skip
  {
    var pos := Wrap8(m.pfx.len + 1);
    var moved := existing.(skip := Wrap8(existing.pfx.len - m.pfx.len - 1));
    var withOld := if !GetBit(existing.pfx.addr, pos) then m.(l := moved) else m.(h := moved);
    var leaf := NewNode(added, Wrap8(added.len - m.pfx.len - 1), false);
    if !GetBit(added.addr, pos) then withOld.(l := leaf) else withOld.(h := leaf)
  }

  /** `insertBefore`: a new node for the less specific `p` whose one child
      is the old subtree, on the side given by the bit of `p` at `level`. */
  function InsertBefore(n: Tree, p: Prefix, level: uint8): (r: Tree)
    requires n.Node?
    ensures r.Node? && r.pfx == p && !r.dummy
  {
    var moved := n.(skip := Wrap8(n.pfx.len - level - 1));
    var above := NewNode(p, Wrap8(p.len - level + 1), false);
    if !GetBit(p.addr, level) then above.(l := moved) else above.(h := moved)
  }

  /** `LPM.Insert` on the root: an empty trie gets a leaf whose skip is the
      prefix length; otherwise insertion starts one bit past the root's
      length. */
  function Inserted(root: Tree, p: Prefix): (r: Tree)
    ensures r.Node?
    ensures root.Nil? ==> r == Node(p.len, false, p, Nil, Nil)
  {
    if root.Nil? then NewNode(p, p.len, false)
    else NodeInsert(root, p, Wrap8(root.pfx.len + 1))
  }

  // ---------------------------------------------------------------------
  // Insertion: what it stores

  /** Changing only a node's skip changes none of its views. */
  lemma SkipIsInformational(n: Tree, s: uint8)
    requires n.Node?
    ensures Stored(n.(skip := s)) == Stored(n)
    ensures Nested(n.(skip := s)) == Nested(n)
    ensures AllCanonical(n.(skip := s)) == AllCanonical(n)
  {}

  /** The two children `insertChildren` creates under a supernet go to
      opposite sides, so the old subtree is never overwritten. */
  lemma SuperNodeShape(n: Tree, p: Prefix)
    requires n.Node? && !Contains(n.pfx, p) && !Contains(p, n.pfx)
    ensures var r := NewSuperNode(n, p);
      var s := GetSupernet(p, n.pfx);
      var oldSide := GetBit(n.pfx.addr, s.len + 1);
      r.skip == s.len && r.l.Node? && r.h.Node? &&
      GetBit(p.addr, s.len + 1) == !oldSide &&
      (if oldSide then r.h else r.l) == n.(skip := n.pfx.len - s.len - 1) &&
      (if oldSide then r.l else r.h) == Node(p.len - s.len - 1, false, p, Nil, Nil)
  {
    SupernetSplits(p, n.pfx);
  }

  lemma SuperNodeStored(n: Tree, p: Prefix)
    requires n.Node? && !Contains(n.pfx, p) && !Contains(p, n.pfx)
    ensures Stored(NewSuperNode(n, p)) == Stored(n) + {p}
  {
    SuperNodeShape(n, p);
    SkipIsInformational(n, n.pfx.len - GetSupernet(p, n.pfx).len - 1);
  }

  /** `insert` either changes nothing or adds exactly `p` to the stored
      routes; nothing stored before is lost. */
  lemma {:induction false} InsertStored(n: Tree, p: Prefix, level: uint8)
    requires n.Node?
    ensures NodeInsert(n, p, level) == n || Stored(NodeInsert(n, p, level)) == Stored(n) + {p}
    decreases n
  {
    if n.pfx == p {
    } else if !Contains(n.pfx, p) {
      if !Contains(p, n.pfx) {
        SuperNodeStored(n, p);
      } else {
        InsertBeforeShape(n, p, level);
      }
    } else if !GetBit(p.addr, level) {
      if n.l.Node? {
        InsertStored(n.l, p, Wrap8(level + 1));
      }
    } else {
      if n.h.Node? {
        InsertStored(n.h, p, Wrap8(level + 1));
      }
    }
  }

  /** `insert` stores `p`, unless the descent ends at a dummy node
      labelled `p`, which the equality test returns unchanged. */
  lemma {:induction false} InsertStoresPrefix(n: Tree, p: Prefix, level: uint8)
    requires n.Node?
    ensures p in Stored(NodeInsert(n, p, level)) || p in DummyLabels(n)
    decreases n
  {
    if n.pfx == p {
    } else if !Contains(n.pfx, p) {
      if !Contains(p, n.pfx) {
        SuperNodeStored(n, p);
      }
    } else if !GetBit(p.addr, level) {
      if n.l.Node? {
        InsertStoresPrefix(n.l, p, Wrap8(level + 1));
      }
    } else {
      if n.h.Node? {
        InsertStoresPrefix(n.h, p, Wrap8(level + 1));
      }
    }
  }

  /** `LPM.Insert` only adds: every route stored before is still stored,
      the only possible new one is `p`, and `p` is stored afterwards
      unless it equals a dummy label; if it equals none, the routes are
      exactly the old ones plus `p`. */
  lemma InsertOnlyAdds(root: Tree, p: Prefix)
    ensures Inserted(root, p) == root || Stored(Inserted(root, p)) == Stored(root) + {p}
    ensures Stored(root) <= Stored(Inserted(root, p)) <= Stored(root) + {p}
    ensures p in Stored(Inserted(root, p)) || p in DummyLabels(root)
    ensures p !in DummyLabels(root) ==> Stored(Inserted(root, p)) == Stored(root) + {p}
  {
    if root.Node? {
      InsertStored(root, p, Wrap8(root.pfx.len + 1));
      InsertStoresPrefix(root, p, Wrap8(root.pfx.len + 1));
    }
  }

  /** Inserting the same prefix twice stores the same routes as inserting
      it once. */
  lemma InsertIdempotentOnRoutes(root: Tree, p: Prefix)
    ensures Stored(Inserted(Inserted(root, p), p)) == Stored(Inserted(root, p))
  {
    var once := Inserted(root, p);
    InsertOnlyAdds(root, p);
    InsertOnlyAdds(once, p);
  }

  // ---------------------------------------------------------------------
  // Insertion: the shape it keeps

  /** The label at the top of an inserted subtree is covered by every
      prefix that covers both the old label and `p`. */
  lemma InsertRootCovered(n: Tree, p: Prefix, level: uint8, q: Prefix)
    requires n.Node? && Contains(q, n.pfx) && Contains(q, p)
    ensures Contains(q, NodeInsert(n, p, level).pfx)
  {
    if n.pfx != p && !Contains(n.pfx, p) && !Contains(p, n.pfx) {
      SupernetIsLeastCommon(p, n.pfx, q);
    }
  }

  lemma InsertBeforeNested(n: Tree, p: Prefix, level: uint8)
    requires n.Node? && Nested(n) && Contains(p, n.pfx)
    ensures Nested(InsertBefore(n, p, level))
  {
    SkipIsInformational(n, Wrap8(n.pfx.len - level - 1));
  }

  lemma SuperNodeNested(n: Tree, p: Prefix)
    requires n.Node? && Nested(n) && !Contains(n.pfx, p) && !Contains(p, n.pfx)
    ensures Nested(NewSuperNode(n, p))
  {
    SuperNodeShape(n, p);
    SkipIsInformational(n, n.pfx.len - GetSupernet(p, n.pfx).len - 1);
  }

  /** `insert` keeps every child within its parent's label. */
  lemma {:induction false} InsertKeepsNested(n: Tree, p: Prefix, level: uint8)
    requires n.Node? && Nested(n)
    ensures Nested(NodeInsert(n, p, level))
    decreases n
  {
    if n.pfx == p {
    } else if !Contains(n.pfx, p) {
      if Contains(p, n.pfx) {
        InsertBeforeNested(n, p, level);
      } else {
        SuperNodeNested(n, p);
      }
    } else if !GetBit(p.addr, level) {
      if n.l.Node? {
        InsertKeepsNested(n.l, p, Wrap8(level + 1));
        InsertRootCovered(n.l, p, Wrap8(level + 1), n.pfx);
      }
    } else {
      if n.h.Node? {
        InsertKeepsNested(n.h, p, Wrap8(level + 1));
        InsertRootCovered(n.h, p, Wrap8(level + 1), n.pfx);
      }
    }
  }

  lemma InsertBeforeCanonical(n: Tree, p: Prefix, level: uint8)
    requires n.Node? && AllCanonical(n) && Canonical(p)
    ensures AllCanonical(InsertBefore(n, p, level))
  {
    SkipIsInformational(n, Wrap8(n.pfx.len - level - 1));
  }

  lemma SuperNodeCanonical(n: Tree, p: Prefix)
    requires n.Node? && AllCanonical(n) && Canonical(p) && !Contains(n.pfx, p) && !Contains(p, n.pfx)
    ensures AllCanonical(NewSuperNode(n, p))
  {
    SuperNodeShape(n, p);
    SkipIsInformational(n, n.pfx.len - GetSupernet(p, n.pfx).len - 1);
  }

  /** `insert` adds no malformed label when `p` is well formed: the dummy
      supernets it creates are. */
  lemma {:induction false} InsertKeepsCanonical(n: Tree, p: Prefix, level: uint8)
    requires n.Node? && AllCanonical(n) && Canonical(p)
    ensures AllCanonical(NodeInsert(n, p, level))
    decreases n
  {
    if n.pfx == p {
    } else if !Contains(n.pfx, p) {
      if Contains(p, n.pfx) {
        InsertBeforeCanonical(n, p, level);
      } else {
        SuperNodeCanonical(n, p);
      }
    } else if !GetBit(p.addr, level) {
      if n.l.Node? {
        InsertKeepsCanonical(n.l, p, Wrap8(level + 1));
      }
    } else {
      if n.h.Node? {
        InsertKeepsCanonical(n.h, p, Wrap8(level + 1));
      }
    }
  }

  /** `insert` creates dummy nodes only as supernets with two children,
      and never empties a slot of an existing node. */
  lemma {:induction false} InsertKeepsDummiesFull(n: Tree, p: Prefix, level: uint8)
    requires n.Node? && DummiesFull(n)
    ensures DummiesFull(NodeInsert(n, p, level))
    decreases n
  {
    if n.pfx == p {
    } else if !Contains(n.pfx, p) {
      if !Contains(p, n.pfx) {
        SuperNodeShape(n, p);
      }
    } else if !GetBit(p.addr, level) {
      if n.l.Node? {
        InsertKeepsDummiesFull(n.l, p, Wrap8(level + 1));
      }
    } else {
      if n.h.Node? {
        InsertKeepsDummiesFull(n.h, p, Wrap8(level + 1));
      }
    }
  }

  /** `LPM.Insert` keeps the trie nested and every dummy node full, and
      keeps it well formed when `p` is. */
  lemma InsertedKeepsShape(root: Tree, p: Prefix)
    ensures Nested(root) ==> Nested(Inserted(root, p))
    ensures AllCanonical(root) && Canonical(p) ==> AllCanonical(Inserted(root, p))
    ensures DummiesFull(root) ==> DummiesFull(Inserted(root, p))
  {
    if root.Node? {
      if DummiesFull(root) {
        InsertKeepsDummiesFull(root, p, Wrap8(root.pfx.len + 1));
      }
      if Nested(root) {
        InsertKeepsNested(root, p, Wrap8(root.pfx.len + 1));
      }
      if AllCanonical(root) && Canonical(p) {
        InsertKeepsCanonical(root, p, Wrap8(root.pfx.len + 1));
      }
    }
  }

  /** Descending: when the node covers `p`, the bit of `p` at `level` picks
      the side; an empty slot gets a non-dummy leaf whose skip is
      `p.len - level` (wrapped as a `uint8`), an occupied one is inserted
      into at `level + 1`; the node itself and its other child are
      untouched. */
  lemma InsertDescends(n: Tree, p: Prefix, level: uint8)
    requires n.Node? && n.pfx != p && Contains(n.pfx, p)
    ensures var r := NodeInsert(n, p, level);
      var high := GetBit(p.addr, level);
      var (slot, slot') := if high then (n.h, r.h) else (n.l, r.l);
      r.pfx == n.pfx && r.dummy == n.dummy && r.skip == n.skip &&
      (if high then r.l == n.l else r.h == n.h) &&
      (slot.Nil? ==> slot' == Node(Wrap8(p.len - level), false, p, Nil, Nil)) &&
      (slot.Node? ==> slot' == NodeInsert(slot, p, Wrap8(level + 1)))
  {}

  /** `insertBefore` puts the old subtree, skip aside, as the only child of
      a non-dummy node for `p`, on the side of the bit of `p` at `level`. */
  lemma InsertBeforeShape(n: Tree, p: Prefix, level: uint8)
    requires n.Node?
    ensures var r := InsertBefore(n, p, level);
      var child := if GetBit(p.addr, level) then r.h else r.l;
      var other := if GetBit(p.addr, level) then r.l else r.h;
      r.skip == Wrap8(p.len - level + 1) && other.Nil? &&
      child == n.(skip := Wrap8(n.pfx.len - level - 1)) &&
      Stored(r) == Stored(n) + {p}
  {
    SkipIsInformational(n, Wrap8(n.pfx.len - level - 1));
  }

  /** With a non-dummy leaf as the old node, `insertChildren` places two
      prefixes that part ways at the bit after the parent the same way
      whichever is the old one. */
  lemma InsertChildrenSymmetric(m: Tree, a: Prefix, b: Prefix, sa: uint8, sb: uint8)
    requires m.Node? && m.l.Nil? && m.h.Nil?
    requires GetBit(a.addr, Wrap8(m.pfx.len + 1)) != GetBit(b.addr, Wrap8(m.pfx.len + 1))
    ensures InsertChildren(m, NewNode(a, sa, false), b) == InsertChildren(m, NewNode(b, sb, false), a)
  {}

  /** Splitting two unrelated prefixes does not depend on which one was
      already in the trie. */
  lemma NewSuperNodeSymmetric(a: Prefix, b: Prefix, sa: uint8, sb: uint8)
    requires !Contains(a, b) && !Contains(b, a)
    ensures NewSuperNode(NewNode(a, sa, false), b) == NewSuperNode(NewNode(b, sb, false), a)
  {
    SupernetSymmetric(a, b);
    SupernetSplits(b, a);
    var s := GetSupernet(b, a);
    InsertChildrenSymmetric(NewNode(s, s.len, true), a, b, sa, sb);
  }

  // ---------------------------------------------------------------------
  // Longest-prefix match

  /** What `n.lpm(needle, &res)` appends: an exact non-dummy match ends the
      branch; a label not covering the needle ends it with nothing; a
      covering label is reported unless dummy, then the low and the high
      subtree are searched. */
  function Matches(t: Tree, needle: Prefix): (r: seq<Prefix>)
    ensures forall q :: q in r ==> q in Stored(t) && Contains(q, needle)
    decreases t
  {
    if t.Nil? then []
    else if t.pfx == needle && !t.dummy then [t.pfx]
    else if !Contains(t.pfx, needle) then []
    else (if t.dummy then [] else [t.pfx]) + Matches(t.l, needle) + Matches(t.h, needle)
  }

  /** `n.lpm(needle, res)`, appending to the result through a pointer:
      the result is extended by exactly `Matches`. */
  method CollectMatches(t: Tree, needle: Prefix, res: seq<Prefix>) returns (out: seq<Prefix>)
    ensures out == res + Matches(t, needle)
    decreases t
  {
    if t.Nil? {
      return res;
    }
    if t.pfx == needle && !t.dummy {
      return res + [t.pfx];
    }
    var c := Contains(t.pfx, needle);
    if !c {
      MatchesMiss(t, needle);
      return res;
    }
    var own: seq<Prefix> := if t.dummy then [] else [t.pfx];
    var low := CollectMatches(t.l, needle, res + own);
    out := CollectMatches(t.h, needle, low);
    MatchesStep(t, needle, own);
    AppendAssoc(res, own, Matches(t.l, needle), Matches(t.h, needle));
  }

  lemma AppendAssoc(a: seq<Prefix>, b: seq<Prefix>, c: seq<Prefix>, d: seq<Prefix>)
    ensures a + b + c + d == a + (b + c + d)
  {}

  lemma MatchesMiss(t: Tree, needle: Prefix)
    requires t.Node? && !Contains(t.pfx, needle)
    ensures Matches(t, needle) == []
  {}

  lemma MatchesStep(t: Tree, needle: Prefix, own: seq<Prefix>)
    requires t.Node? && !(t.pfx == needle && !t.dummy) && Contains(t.pfx, needle)
    requires own == if t.dummy then [] else [t.pfx]
    ensures Matches(t, needle) == own + Matches(t.l, needle) + Matches(t.h, needle)
  {}

  /** In a nested trie every stored route lies within the root's label. */
  lemma {:induction false} StoredWithinRoot(t: Tree)
    requires t.Node?
    ensures Nested(t) ==> forall q :: q in Stored(t) ==> Contains(t.pfx, q)
    decreases t
  {
    forall q | Nested(t) && q in Stored(t)
      ensures Contains(t.pfx, q)
    {
      if q in Stored(t.l) {
        StoredWithinRoot(t.l);
        ContainsTransitive(t.pfx, t.l.pfx, q);
      } else if q in Stored(t.h) {
        StoredWithinRoot(t.h);
        ContainsTransitive(t.pfx, t.h.pfx, q);
      }
    }
  }

  /** In a nested, well-formed trie the matches are all stored routes that
      cover the needle. */
  lemma {:induction false} MatchesComplete(t: Tree, needle: Prefix)
    requires Nested(t) && AllCanonical(t)
    ensures forall q :: q in Stored(t) && Contains(q, needle) ==> q in Matches(t, needle)
    decreases t
  {
    if t.Node? {
      StoredWithinRoot(t);
      if t.pfx == needle && !t.dummy {
        forall q | q in Stored(t) && Contains(q, needle)
          ensures q == needle
        {
          StoredCanonical(t, q);
          ContainsAntisymmetric(q, needle);
        }
      } else if !Contains(t.pfx, needle) {
        forall q | q in Stored(t) && Contains(q, needle)
          ensures false
        {
          ContainsTransitive(t.pfx, q, needle);
        }
      } else {
        MatchesComplete(t.l, needle);
        MatchesComplete(t.h, needle);
      }
    }
  }

  lemma {:induction false} StoredCanonical(t: Tree, q: Prefix)
    requires AllCanonical(t) && q in Stored(t)
    ensures Canonical(q)
    decreases t
  {
    if q in Stored(t.l) {
      StoredCanonical(t.l, q);
    } else if q in Stored(t.h) {
      StoredCanonical(t.h, q);
    }
  }

  /** The matches form one chain of nested prefixes. */
  lemma MatchesChain(t: Tree, needle: Prefix)
    ensures forall i, j :: 0 <= i < j < |Matches(t, needle)| ==>
      Contains(Matches(t, needle)[i], Matches(t, needle)[j]) ||
      Contains(Matches(t, needle)[j], Matches(t, needle)[i])
  {
    var m := Matches(t, needle);
    forall i, j | 0 <= i < j < |m|
      ensures Contains(m[i], m[j]) || Contains(m[j], m[i])
    {
      CoveringPrefixesNest(m[i], m[j], needle);
    }
  }

  /** Ancestors come first: in a nested trie, a reported root is the first
      match and covers every later one; an exact non-dummy hit is the only
      match. */
  lemma MatchesRootFirst(t: Tree, needle: Prefix)
    requires t.Node? && Nested(t) && !t.dummy && Contains(t.pfx, needle)
    ensures var m := Matches(t, needle);
      |m| > 0 && m[0] == t.pfx && forall j :: 0 <= j < |m| ==> Contains(m[0], m[j])
    ensures t.pfx == needle ==> Matches(t, needle) == [needle]
  {
    var m := Matches(t, needle);
    StoredWithinRoot(t);
    assert m[0] == t.pfx;
    forall j | 0 <= j < |m|
      ensures Contains(m[0], m[j])
    {
      assert m[j] in m;
    }
  }

  // ---------------------------------------------------------------------
  // Exact lookup and enumeration

  /** `n.get(pfx)`: an equal label is a hit unless it is dummy; a label
      longer than the target is a miss; otherwise the target's bit at the
      node's own length sends a set bit to the low child and a clear one
      to the high child. A nil child is a miss. */
  function GetNode(t: Tree, p: Prefix): (r: Option<Tree>)
    ensures r.Some? ==> r.value.Node? && r.value.pfx == p && !r.value.dummy
    ensures r.Some? ==> Stored(r.value) <= Stored(t) && p in Stored(t)
    ensures r.Some? && Nested(t) ==> Nested(r.value)
    decreases t
  {
    if t.Nil? then None
    else if t.pfx == p then (if t.dummy then None else Some(t))
    else if t.pfx.len > p.len then None
    else if GetBit(p.addr, t.pfx.len) then GetNode(t.l, p)
    else GetNode(t.h, p)
  }

  /** `dumpPfxs` as its callers need it: the non-dummy labels in pre-order
      (node, low subtree, high subtree), returned; it lists exactly the
      stored routes. */
  function DumpPfxs(t: Tree): (r: seq<Prefix>)
    ensures forall q :: q in r <==> q in Stored(t)
    decreases t
  {
    if t.Nil? then []
    else (if t.dummy then [] else [t.pfx]) + DumpPfxs(t.l) + DumpPfxs(t.h)
  }

  /** `LPM.Get` as written. With `moreSpecifics`, `dumpPfxs` receives the
      result slice by value: its appends go to its own copies and the
      caller returns its still-nil slice. A nil node (not found) is where
      Go would dereference nil; it gives no result here. */
  function GetAsWritten(root: Tree, p: Prefix, moreSpecifics: bool): (r: seq<Prefix>)
    ensures moreSpecifics ==> r == []
    ensures !moreSpecifics ==> r == Lookup(root, p, false)
  {
    if root.Nil? then []
    else
      var node := GetNode(root, p);
      if moreSpecifics then []
      else if node.Some? then [node.value.pfx]
      else []
  }

  /** `LPM.Get` with `dumpPfxs` returning its list: the exact hit alone,
      or with `moreSpecifics` the hit and every route below it in
      pre-order; nothing when the target is not found. */
  function Lookup(root: Tree, p: Prefix, moreSpecifics: bool): (r: seq<Prefix>)
    ensures r != [] <==> GetNode(root, p).Some?
    ensures !moreSpecifics ==> r == [] || (r == [p] && p in Stored(root))
    ensures r != [] ==> r[0] == p
    ensures forall q :: q in r ==> q in Stored(root)
    ensures Nested(root) ==> forall q :: q in r ==> Contains(p, q)
    ensures moreSpecifics && GetNode(root, p).Some? ==>
      forall q :: q in r <==> q in Stored(GetNode(root, p).value)
  {
    var node := GetNode(root, p);
    if node.None? then []
    else if moreSpecifics then
      StoredWithinRoot(node.value);
      DumpPfxs(node.value)
    else [p]
  }
}
