/** The `LPM` table of lpm/lpm.go: a root pointer that `Insert` replaces
    and that the queries read. */
module Table {
  import opened Bits
  import opened Prefixes
  import opened Trie

  class LPM {
    /** The trie; `Nil` for a new table. */
    var root: Tree

    /** Every child's label lies within its parent's, and every dummy node
        has both children; each insertion keeps both. */
    ghost predicate Valid()
      reads this
    {
      Nested(root) && DummiesFull(root)
    }

    /** `New`: an empty table. */
    constructor ()
      ensures root == Nil && Valid()
    {
      root := Nil;
    }

    /** `LPM.Insert`: the root becomes the inserted tree. A first prefix
        becomes a non-dummy leaf whose skip is its length. Afterwards the
        stored routes are the old ones, plus `p` unless nothing changed;
        `p` is stored unless it equals the label of a dummy node, and if
        it equals none the routes are exactly the old ones plus `p`. */
    method Insert(p: Prefix)
      requires Valid()
      modifies this
      ensures Valid()
      ensures root == Inserted(old(root), p)
      ensures old(root) == Nil ==> root == Node(p.len, false, p, Nil, Nil)
      ensures root == old(root) || Stored(root) == Stored(old(root)) + {p}
      ensures p in Stored(root) || p in DummyLabels(old(root))
      ensures p !in DummyLabels(old(root)) ==> Stored(root) == Stored(old(root)) + {p}
      ensures AllCanonical(old(root)) && Canonical(p) ==> AllCanonical(root)
    {
      InsertOnlyAdds(root, p);
      InsertedKeepsShape(root, p);
      if root == Nil {
        root := NewNode(p, p.len, false);
        return;
      }
      root := NodeInsert(root, p, Wrap8(root.pfx.len + 1));
    }

    /** `LPM.LPM`: every stored route that covers the needle, in the order
        the trie search meets them; nothing for an empty table. */
    method LPM(needle: Prefix) returns (res: seq<Prefix>)
      ensures res == Matches(root, needle)
      ensures root == Nil ==> res == []
      ensures forall q :: q in res ==> q in Stored(root) && Contains(q, needle)
    {
      if root == Nil {
        return [];
      }
      res := CollectMatches(root, needle, []);
    }

    /** `LPM.Get`: the exact non-dummy hit, and with `moreSpecifics` every
        route below it, or nothing when the search misses. */
    method Get(p: Prefix, moreSpecifics: bool) returns (res: seq<Prefix>)
      requires Valid()
      ensures res == Lookup(root, p, moreSpecifics)
      ensures root == Nil ==> res == []
      ensures forall q :: q in res ==> q in Stored(root) && Contains(p, q)
    {
      if root == Nil {
        return [];
      }
      res := Lookup(root, p, moreSpecifics);
    }
  }
}
