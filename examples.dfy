/** The behaviour lpm/lpm_test.go pins down, worked out on the model:
    tree shapes after insertions, lookups and enumerations, and the places
    where the code does something other than its tests expect. */
module Examples {
  import opened Bits
  import opened Prefixes
  import opened Trie
  import opened Corrected

  const Net10_7 := Prefix(0x0A00_0000, 7)
  const Net10_8 := Prefix(0x0A00_0000, 8)
  const Net10_9 := Prefix(0x0A00_0000, 9)
  const Net10_128_9 := Prefix(0x0A80_0000, 9)
  const Net10_10 := Prefix(0x0A00_0000, 10)
  const Net10_12 := Prefix(0x0A00_0000, 12)
  const Net11_8 := Prefix(0x0B00_0000, 8)
  const Net11_100_123_24 := Prefix(0x0B64_7B00, 24)
  const Net11_100_123_128_25 := Prefix(0x0B64_7B80, 25)
  const Host10 := Prefix(0x0A00_0000, 32)
  const Net10_0_16 := Prefix(0x0A00_0000, 16)
  const Net10_32_16 := Prefix(0x0A20_0000, 16)

  function Leaf(p: Prefix, skip: uint8): Tree {
    Node(skip, false, p, Nil, Nil)
  }

  /** 10.0.0.0/8 and 11.100.123.0/24 split under the dummy 10.0.0.0/7. */
  const Disjoint := Node(7, true, Net10_7, Leaf(Net10_8, 0), Leaf(Net11_100_123_24, 16))

  /** `Disjoint` after 10.0.0.0/12. */
  const With12 := Node(7, true, Net10_7, Node(0, false, Net10_8, Leaf(Net10_12, 3), Nil), Leaf(Net11_100_123_24, 16))

  /** `With12` after 10.0.0.0/10: the tree of the test "Insert disjunct
      prefixes plus one child low". */
  const Four := Node(7, true, Net10_7,
    Node(0, false, Net10_8, Node(1, false, Net10_10, Leaf(Net10_12, 1), Nil), Nil),
    Leaf(Net11_100_123_24, 16))

  /** `Four` after 11.100.123.128/25, as the code builds it. */
  const Five := Node(7, true, Net10_7,
    Node(0, false, Net10_8, Node(1, false, Net10_10, Leaf(Net10_12, 1), Nil), Nil),
    Node(16, false, Net11_100_123_24, Leaf(Net11_100_123_128_25, 16), Nil))

  // ---------------------------------------------------------------------
  // getBitUint32 and GetSupernet

  /** Bit 8 of 10.0.0.0 is clear and bit 8 of 11.0.0.0 is set. */
  lemma GetBitExamples()
    ensures !GetBit(0x0A00_0000, 8) && GetBit(0x0B00_0000, 8)
  {
    GetBitMatchesSource(0x0A00_0000, 8);
    GetBitMatchesSource(0x0B00_0000, 8);
  }

  /** The supernet of 11.100.123.0/24 and 10.0.0.0/8 is 10.0.0.0/7. */
  lemma SupernetExample()
    ensures GetSupernet(Net11_100_123_24, Net10_8) == Net10_7
  {
    var x, y := Net11_100_123_24.addr, Net10_8.addr;
    AgreeIsMasked(x, y, 7);
    NetmaskClosed(7, 7);
    GetBitMatchesSource(x, 8);
    GetBitMatchesSource(y, 8);
    CommonLenIs(x, y, 8, 7);
    KeepLeadingIsMasking(x, 7);
  }

  // ---------------------------------------------------------------------
  // Insertion

  /** The first prefix becomes a non-dummy leaf whose skip is its length,
      and inserting it again changes nothing. */
  lemma InsertFirstAndAgain()
    ensures Inserted(Nil, Net10_8) == Leaf(Net10_8, 8)
    ensures Inserted(Inserted(Inserted(Inserted(Nil, Net10_8), Net10_8), Net10_8), Net10_8) == Leaf(Net10_8, 8)
  {}

  /** 10.0.0.0/9 and 10.128.0.0/9 under 10.0.0.0/8 go low and high. */
  lemma InsertTriangle()
    ensures Inserted(Inserted(Inserted(Nil, Net10_8), Net10_9), Net10_128_9)
      == Node(8, false, Net10_8, Leaf(Net10_9, 0), Leaf(Net10_128_9, 0))
  {
    ContainsIsMaskTest(Net10_8, Net10_9);
    ContainsIsMaskTest(Net10_8, Net10_128_9);
    NetmaskClosed(8, 8);
    GetBitMatchesSource(0x0A00_0000, 9);
    GetBitMatchesSource(0x0A80_0000, 9);
  }

  /** Two unrelated prefixes are split under a dummy supernet: 10.0.0.0/8
      low with skip 0, 11.100.123.0/24 high with skip 16. */
  lemma InsertDisjoint()
    ensures Inserted(Inserted(Nil, Net10_8), Net11_100_123_24) == Disjoint
  {
    ContainsIsMaskTest(Net10_8, Net11_100_123_24);
    NetmaskClosed(8, 8);
    SupernetExample();
    GetBitMatchesSource(0x0A00_0000, 8);
    GetBitMatchesSource(0x0B64_7B00, 8);
  }

  lemma InsertSlash12()
    ensures Inserted(Disjoint, Net10_12) == With12
  {
    ContainsIsMaskTest(Net10_7, Net10_12);
    NetmaskClosed(7, 7);
    ContainsIsMaskTest(Net10_8, Net10_12);
    NetmaskClosed(8, 8);
    GetBitMatchesSource(0x0A00_0000, 8);
    GetBitMatchesSource(0x0A00_0000, 9);
  }

  lemma InsertSlash10()
    ensures Inserted(With12, Net10_10) == Four
  {
    ContainsIsMaskTest(Net10_7, Net10_10);
    NetmaskClosed(7, 7);
    ContainsIsMaskTest(Net10_8, Net10_10);
    NetmaskClosed(8, 8);
    ContainsIsMaskTest(Net10_10, Net10_12);
    NetmaskClosed(10, 10);
    GetBitMatchesSource(0x0A00_0000, 8);
    GetBitMatchesSource(0x0A00_0000, 9);
    GetBitMatchesSource(0x0A00_0000, 10);
  }

  /** The four insertions of the test "plus one child low" give its tree:
      10.0.0.0/10 is pushed above 10.0.0.0/12, both with skip 1. */
  lemma InsertFour()
    ensures Inserted(Inserted(Inserted(Inserted(Nil, Net10_8), Net11_100_123_24), Net10_12), Net10_10) == Four
  {
    InsertDisjoint();
    InsertSlash12();
    InsertSlash10();
  }

  /** The level passed down grows by one per tree level, not per prefix
      bit: under 11.100.123.0/24 (reached at level 9) the bit read for
      11.100.123.128/25 is bit 9, which is clear, so it becomes a LOW child
      with skip 16, where the test "plus one child high" expects it high. */
  lemma InsertSlash25GoesLow()
    ensures Inserted(Four, Net11_100_123_128_25) == Five
  {
    ContainsIsMaskTest(Net10_7, Net11_100_123_128_25);
    NetmaskClosed(7, 7);
    ContainsIsMaskTest(Net11_100_123_24, Net11_100_123_128_25);
    NetmaskClosed(24, 24);
    GetBitMatchesSource(0x0B64_7B80, 8);
    GetBitMatchesSource(0x0B64_7B80, 9);
  }

  // ---------------------------------------------------------------------
  // The helpers on their own

  /** `newSuperNode` on a leaf 10.0.0.0/8 and 11.100.123.0/24. */
  lemma NewSuperNodeExample()
    ensures NewSuperNode(Leaf(Net10_8, 8), Net11_100_123_24) == Disjoint
  {
    SupernetExample();
    GetBitMatchesSource(0x0A00_0000, 8);
    GetBitMatchesSource(0x0B64_7B00, 8);
  }

  /** `insertChildren` under a dummy 10.0.0.0/8 places 10.0.0.0/9 low and
      10.128.0.0/9 high, whichever of the two is the old node. */
  lemma InsertChildrenExample()
    ensures InsertChildren(Node(8, true, Net10_8, Nil, Nil), Leaf(Net10_9, 9), Net10_128_9)
      == Node(8, true, Net10_8, Leaf(Net10_9, 0), Leaf(Net10_128_9, 0))
    ensures InsertChildren(Node(8, true, Net10_8, Nil, Nil), Leaf(Net10_128_9, 9), Net10_9)
      == Node(8, true, Net10_8, Leaf(Net10_9, 0), Leaf(Net10_128_9, 0))
  {
    GetBitMatchesSource(0x0A00_0000, 9);
    GetBitMatchesSource(0x0A80_0000, 9);
  }

  /** `insertBefore` at level `pfx.len`: the old node goes to the side of
      the new prefix's bit at that level with skip `old.len - level - 1`,
      and the new node gets skip `pfx.len - level + 1`, that is 1, where
      the tests expect `pfx.len` (8 and 7). */
  lemma InsertBeforeExamples()
    ensures InsertBefore(Leaf(Net10_10, 10), Net10_8, 8) == Node(1, false, Net10_8, Leaf(Net10_10, 1), Nil)
    ensures InsertBefore(Leaf(Net11_8, 8), Net10_7, 7) == Node(1, false, Net10_7, Nil, Leaf(Net11_8, 0))
  {
    GetBitMatchesSource(0x0A00_0000, 8);
    GetBitMatchesSource(0x0A00_0000, 7);
  }

  // ---------------------------------------------------------------------
  // Queries

  /** `LPM` on the four-prefix tree: 10.0.0.0/32 is covered by /8, /10 and
      /12, least specific first; the search for 10.0.0.0/10 ends at its
      exact match; an empty table answers nothing. */
  lemma LongestMatchExamples()
    ensures Matches(Four, Host10) == [Net10_8, Net10_10, Net10_12]
    ensures Matches(Four, Net10_10) == [Net10_8, Net10_10]
    ensures Matches(Nil, Host10) == []
  {
    ContainsIsMaskTest(Net10_7, Host10);
    NetmaskClosed(7, 7);
    ContainsIsMaskTest(Net10_8, Host10);
    NetmaskClosed(8, 8);
    ContainsIsMaskTest(Net10_10, Host10);
    NetmaskClosed(10, 10);
    ContainsIsMaskTest(Net10_12, Host10);
    NetmaskClosed(12, 12);
    ContainsIsMaskTest(Net11_100_123_24, Host10);
    NetmaskClosed(24, 24);
    ContainsIsMaskTest(Net10_7, Net10_10);
    ContainsIsMaskTest(Net10_8, Net10_10);
  }

  /** The pre-order enumeration of the four-prefix tree. */
  lemma DumpExample()
    ensures DumpPfxs(Four) == [Net10_8, Net10_10, Net10_12, Net11_100_123_24]
  {}

  /** `Get` on the four-prefix tree: 10.0.0.0/8 alone, or with its more
      specific routes; a dummy label, 10.0.0.0/10 where it is not stored,
      and an empty table give nothing. */
  lemma GetExamples()
    ensures Lookup(Four, Net10_8, false) == [Net10_8]
    ensures Lookup(Four, Net10_8, true) == [Net10_8, Net10_10, Net10_12]
    ensures Lookup(Disjoint, Net10_7, false) == []
    ensures Lookup(Disjoint, Net10_10, false) == []
    ensures Lookup(Node(8, false, Net10_8, Leaf(Net10_12, 3), Nil), Net10_10, false) == []
    ensures Lookup(Nil, Host10, false) == []
  {
    GetBitMatchesSource(0x0A00_0000, 7);
    GetBitMatchesSource(0x0A00_0000, 8);
  }

  /** `get` reads the target's bit at the node's own length and sends a
      set bit low, while insertion reads the bit at its level and sends a
      set bit high, so the search for the stored 11.100.123.0/24 turns
      low at 10.0.0.0/7 and ends at a missing child: not found, where the
      test "Test 5" expects it. */
  lemma GetMissesStoredRoute()
    ensures Net11_100_123_24 in Stored(Four)
    ensures GetNode(Four, Net11_100_123_24) == None
    ensures Lookup(Four, Net11_100_123_24, false) == []
  {
    GetBitMatchesSource(0x0B64_7B00, 7);
    GetBitMatchesSource(0x0B64_7B00, 8);
    GetBitMatchesSource(0x0B64_7B00, 10);
    GetBitMatchesSource(0x0B64_7B00, 12);
  }

  /** As written, `Get` with `moreSpecifics` returns nothing even for a
      stored route with routes below it. */
  lemma GetMoreSpecificsLosesResults()
    ensures GetAsWritten(Four, Net10_8, true) == []
    ensures Lookup(Four, Net10_8, true) == [Net10_8, Net10_10, Net10_12]
  {
    GetExamples();
  }

  // ---------------------------------------------------------------------
  // Repeated insertion

  const OneChild := Node(8, false, Net10_8, Leaf(Net10_0_16, 7), Nil)

  const Split := Node(8, false, Net10_8,
    Node(10, true, Net10_10, Leaf(Net10_0_16, 5), Leaf(Net10_32_16, 5)), Nil)

  const SplitTwice := Node(8, false, Net10_8,
    Node(10, true, Net10_10, Node(10, true, Net10_10, Leaf(Net10_0_16, 5), Leaf(Net10_32_16, 5)), Leaf(Net10_32_16, 5)),
    Nil)

  lemma SupernetOfSixteens()
    ensures GetSupernet(Net10_32_16, Net10_0_16) == Net10_10
    ensures !Contains(Net10_0_16, Net10_32_16) && !Contains(Net10_32_16, Net10_0_16)
    ensures !GetBit(0x0A00_0000, 11) && GetBit(0x0A20_0000, 11)
  {
    var x, y := Net10_32_16.addr, Net10_0_16.addr;
    AgreeIsMasked(x, y, 10);
    NetmaskClosed(10, 10);
    GetBitMatchesSource(x, 11);
    GetBitMatchesSource(y, 11);
    CommonLenIs(x, y, 16, 10);
    KeepLeadingIsMasking(x, 10);
    ContainsIsMaskTest(Net10_0_16, Net10_32_16);
    ContainsIsMaskTest(Net10_32_16, Net10_0_16);
    NetmaskClosed(16, 16);
  }

  lemma InsertSplits()
    ensures Inserted(OneChild, Net10_32_16) == Split
  {
    SupernetOfSixteens();
    ContainsIsMaskTest(Net10_8, Net10_32_16);
    NetmaskClosed(8, 8);
    GetBitMatchesSource(0x0A20_0000, 9);
  }

  lemma InsertSplitsAgain()
    ensures Inserted(Split, Net10_32_16) == SplitTwice
  {
    SupernetOfSixteens();
    ContainsIsMaskTest(Net10_8, Net10_32_16);
    NetmaskClosed(8, 8);
    ContainsIsMaskTest(Net10_10, Net10_32_16);
    NetmaskClosed(10, 10);
    GetBitMatchesSource(0x0A20_0000, 9);
    GetBitMatchesSource(0x0A20_0000, 10);
  }

  /** Inserting a prefix a second time can change the tree: after
      10.0.0.0/8, 10.0.0.0/16 and 10.32.0.0/16, inserting 10.32.0.0/16
      again reads a bit one level deeper than the split that placed it,
      misses it, and splits again, so the route is stored twice. The set
      of stored routes is unchanged, as `InsertIdempotentOnRoutes` says of
      every tree. */
  lemma InsertTwiceChangesTree()
    ensures Inserted(Inserted(Leaf(Net10_8, 8), Net10_0_16), Net10_32_16) == Split
    ensures Inserted(Split, Net10_32_16) == SplitTwice
    ensures SplitTwice != Split
    ensures Stored(SplitTwice) == Stored(Split)
  {
    ContainsIsMaskTest(Net10_8, Net10_0_16);
    NetmaskClosed(8, 8);
    GetBitMatchesSource(0x0A00_0000, 9);
    InsertSplits();
    InsertSplitsAgain();
  }

  /** A prefix equal to a dummy label is ignored: inserting 10.0.0.0/7
      into `Disjoint` changes nothing and stores nothing. */
  lemma InsertDummyLabelIgnored()
    ensures Inserted(Disjoint, Net10_7) == Disjoint
    ensures Net10_7 !in Stored(Inserted(Disjoint, Net10_7))
  {}

  // ---------------------------------------------------------------------
  // Match order

  const Net10_32_12 := Prefix(0x0A20_0000, 12)
  const Net10_32_14 := Prefix(0x0A20_0000, 14)
  const Host10_32 := Prefix(0x0A20_0000, 32)

  /** 10.0.0.0/8, then 10.32.0.0/12, 10.32.0.0/16 and 10.0.0.0/10, as the
      code builds them: 10.0.0.0/10 is pushed above 10.32.0.0/12. */
  const Chain4 := Node(8, false, Net10_8,
    Node(1, false, Net10_10, Node(1, false, Net10_32_12, Leaf(Net10_32_16, 6), Nil), Nil), Nil)

  /** `Chain4` after 10.32.0.0/14, which the code places beside
      10.32.0.0/16 instead of above it. */
  const Chain5 := Node(8, false, Net10_8,
    Node(1, false, Net10_10, Node(1, false, Net10_32_12, Leaf(Net10_32_16, 6), Leaf(Net10_32_14, 3)), Nil), Nil)

  lemma BuildChain4()
    ensures Inserted(Inserted(Inserted(Leaf(Net10_8, 8), Net10_32_12), Net10_32_16), Net10_10) == Chain4
  {
    ContainsIsMaskTest(Net10_8, Net10_32_12);
    ContainsIsMaskTest(Net10_8, Net10_32_16);
    ContainsIsMaskTest(Net10_8, Net10_10);
    NetmaskClosed(8, 8);
    ContainsIsMaskTest(Net10_32_12, Net10_32_16);
    NetmaskClosed(12, 12);
    ContainsIsMaskTest(Net10_10, Net10_32_12);
    NetmaskClosed(10, 10);
    GetBitMatchesSource(0x0A20_0000, 9);
    GetBitMatchesSource(0x0A20_0000, 10);
    GetBitMatchesSource(0x0A00_0000, 9);
    GetBitMatchesSource(0x0A00_0000, 10);
  }

  lemma BuildChain5()
    ensures Inserted(Chain4, Net10_32_14) == Chain5
  {
    ContainsIsMaskTest(Net10_8, Net10_32_14);
    NetmaskClosed(8, 8);
    ContainsIsMaskTest(Net10_10, Net10_32_14);
    NetmaskClosed(10, 10);
    ContainsIsMaskTest(Net10_32_12, Net10_32_14);
    NetmaskClosed(12, 12);
    GetBitMatchesSource(0x0A20_0000, 9);
    GetBitMatchesSource(0x0A20_0000, 10);
    GetBitMatchesSource(0x0A20_0000, 11);
  }

  /** As written, the five insertions leave 10.32.0.0/14 beside
      10.32.0.0/16, and the match for 10.32.0.0/32 lists /16 before /14:
      not least specific first. */
  lemma MatchesOutOfOrder()
    ensures Inserted(Inserted(Inserted(Inserted(Leaf(Net10_8, 8), Net10_32_12), Net10_32_16), Net10_10), Net10_32_14) == Chain5
    ensures Matches(Chain5, Host10_32) == [Net10_8, Net10_10, Net10_32_12, Net10_32_16, Net10_32_14]
    ensures !Ascending(Matches(Chain5, Host10_32))
  {
    BuildChain4();
    BuildChain5();
    ContainsIsMaskTest(Net10_8, Host10_32);
    NetmaskClosed(8, 8);
    ContainsIsMaskTest(Net10_10, Host10_32);
    NetmaskClosed(10, 10);
    ContainsIsMaskTest(Net10_32_12, Host10_32);
    NetmaskClosed(12, 12);
    ContainsIsMaskTest(Net10_32_14, Host10_32);
    NetmaskClosed(14, 14);
    ContainsIsMaskTest(Net10_32_16, Host10_32);
    NetmaskClosed(16, 16);
    var m := Matches(Chain5, Host10_32);
    assert m[3].len > m[4].len;
  }

  /** The same insertions with the corrected `insert`: each prefix sits
      under the one it refines. */
  const FixedChain5 := Node(8, false, Net10_8,
    Node(1, false, Net10_10, Nil,
      Node(1, false, Net10_32_12, Node(1, false, Net10_32_14, Leaf(Net10_32_16, 1), Nil), Nil)), Nil)

  lemma BuildFixedChain4()
    ensures FixedInserted(FixedInserted(FixedInserted(Leaf(Net10_8, 8), Net10_32_12), Net10_32_16), Net10_10)
      == Node(8, false, Net10_8, Node(1, false, Net10_10, Nil, Node(1, false, Net10_32_12, Leaf(Net10_32_16, 3), Nil)), Nil)
  {
    ContainsIsMaskTest(Net10_8, Net10_32_12);
    ContainsIsMaskTest(Net10_8, Net10_32_16);
    ContainsIsMaskTest(Net10_8, Net10_10);
    NetmaskClosed(8, 8);
    ContainsIsMaskTest(Net10_32_12, Net10_32_16);
    NetmaskClosed(12, 12);
    ContainsIsMaskTest(Net10_10, Net10_32_12);
    NetmaskClosed(10, 10);
    GetBitMatchesSource(0x0A20_0000, 9);
    GetBitMatchesSource(0x0A20_0000, 11);
    GetBitMatchesSource(0x0A20_0000, 13);
    GetBitMatchesSource(0x0A00_0000, 9);
  }

  lemma BuildFixedChain5()
    ensures FixedInserted(Node(8, false, Net10_8, Node(1, false, Net10_10, Nil, Node(1, false, Net10_32_12, Leaf(Net10_32_16, 3), Nil)), Nil), Net10_32_14)
      == FixedChain5
  {
    ContainsIsMaskTest(Net10_8, Net10_32_14);
    NetmaskClosed(8, 8);
    ContainsIsMaskTest(Net10_10, Net10_32_14);
    NetmaskClosed(10, 10);
    ContainsIsMaskTest(Net10_32_12, Net10_32_14);
    NetmaskClosed(12, 12);
    ContainsIsMaskTest(Net10_32_14, Net10_32_16);
    NetmaskClosed(14, 14);
    GetBitMatchesSource(0x0A20_0000, 9);
    GetBitMatchesSource(0x0A20_0000, 11);
    GetBitMatchesSource(0x0A20_0000, 13);
    GetBitMatchesSource(0x0A20_0000, 15);
  }

  /** With the corrected `insert`, the match for 10.32.0.0/32 after the
      same five insertions is least specific first. */
  lemma FixedMatchesInOrder()
    ensures FixedInserted(FixedInserted(FixedInserted(FixedInserted(Leaf(Net10_8, 8), Net10_32_12), Net10_32_16), Net10_10), Net10_32_14)
      == FixedChain5
    ensures Matches(FixedChain5, Host10_32) == [Net10_8, Net10_10, Net10_32_12, Net10_32_14, Net10_32_16]
  {
    BuildFixedChain4();
    BuildFixedChain5();
    ContainsIsMaskTest(Net10_8, Host10_32);
    NetmaskClosed(8, 8);
    ContainsIsMaskTest(Net10_10, Host10_32);
    NetmaskClosed(10, 10);
    ContainsIsMaskTest(Net10_32_12, Host10_32);
    NetmaskClosed(12, 12);
    ContainsIsMaskTest(Net10_32_14, Host10_32);
    NetmaskClosed(14, 14);
    ContainsIsMaskTest(Net10_32_16, Host10_32);
    NetmaskClosed(16, 16);
  }
}
