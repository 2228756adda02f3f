# IPv4 longest-prefix-match trie

A model of the prefix trie in `lpm/lpm.go`. The trie stores IPv4 CIDR
prefixes, as in section 3.1 of RFC 4632: a 32-bit address and a length
from 0 to 32. It answers longest-match queries in the sense of section
5.2.4.3 of RFC 1812. It is a path-compressed binary trie:

- A node holds a prefix, a `dummy` flag, a `skip` count and a low and a
  high child.
- Dummy nodes are synthetic branch labels and are never routes.
- `skip` is written by insertion but never read by any lookup.

The model proves these properties:

- Insertion never loses a route and adds at most the inserted one. It
  always stores the inserted prefix, unless that prefix equals the label
  of a dummy node.
- Insertion keeps every child's label inside its parent's label.
- The longest-match search reports exactly the stored routes that cover
  the needle. They lie on one chain, and a reported node comes before
  everything found below it.
- Exact lookup only ever returns a stored, non-dummy node.
- The enumeration lists exactly the stored routes.

The match is not always least specific first. Insertion can place a
prefix beside a more specific one instead of above it, and the search
then reports the more specific one first (`Examples.MatchesOutOfOrder`).
A corrected insertion and lookup are defined in `corrected.dfy`. For
them the model proves:

- The match comes out least specific first.
- A repeated insert leaves the tree unchanged.
- Exact lookup finds every stored route.

The behaviour pinned down by `lpm/lpm_test.go` is worked out on concrete
prefixes in `examples.dfy`.

Files:

- `bits.dfy` (module `Bits`): Go's `uint8` wrap-around and `getBitUint32`.
  Bit positions count from the most significant bit, starting at 1. It
  also has the leading-bits truncation and the netmask the prefix
  operations are built from.
- `prefix.dfy` (module `Prefixes`): `net.Prefix`. Its package is not part
  of this model. `Contains` and `GetSupernet` are defined from their
  documented meaning, and their properties are proved.
- `trie.dfy` (module `Trie`): the node tree, the insert family, `lpm`,
  `get` and `dumpPfxs`.
- `lpm_table.dfy` (module `Table`): the `LPM` class holding the root.
  Insertion and the longest match follow the code as written. `Get`
  follows the corrected `dumpPfxs` (first row of "## Findings").
- `corrected.dfy` (module `Corrected`): the insertion and exact lookup the
  code evidently intends, with the ordering invariant they keep and its
  consequences.
- `examples.dfy` (module `Examples`): the test cases, worked out.

## How the model reads the code

**Nodes as values.** The tree is a datatype, `Tree = Nil | Node(skip,
dummy, pfx, l, h)`. In Go the insert helpers overwrite `l`, `h` and
`skip` in place. `insert`, `insertLow`, `insertHigh`, `insertBefore` and
`newSuperNode` return the node that replaces the one they were called
on. `insertChildren` returns nothing: it fills in the fresh supernet node
that `newSuperNode` created and then returns. No node is reachable twice.
So each helper is a function returning the replacing subtree, and
`InsertChildren` returns the filled-in node. The table is a class whose
`Insert` reassigns `root`.

**uint8 arithmetic.** `skip` and `level` are `uint8`. Every subtraction
and increment on them is wrapped modulo 256 (`Wrap8`), as Go does.

**`getBitUint32`.** `getBitUint32(x, pos)` computes `32 - pos` in
`uint8`. A `uint32` shifted by 32 or more is 0, so the result is false at
position 0 and beyond 32. `GetBitMatchesSource` proves the model's
`GetBit` equal to that expression at all 256 positions.

**Nil pointers.** `get` dereferences a nil child. `Get` dereferences a
nil node when nothing is found. Both are modelled as "not found".

The code does several things its tests do not expect. The model follows
the code. Each point below has a worked example:

- **Level grows per depth.** `insertLow`/`insertHigh` pass `level + 1`
  to the child (lpm/lpm.go:154,163). So the bit read at a node is not
  the bit right after its label.
  - 11.100.123.128/25 becomes a low child of 11.100.123.0/24
    (`Examples.InsertSlash25GoesLow`); the test at lpm/lpm_test.go:216-247
    expects it high.
  - Inserting a prefix twice can change the tree and store the route
    twice (`Examples.InsertTwiceChangesTree`).
  - The set of stored routes never changes on a repeated insert
    (`Trie.InsertIdempotentOnRoutes`).
  - A prefix can end up beside a more specific one instead of above it.
    The longest match then reports the more specific one first
    (`Examples.MatchesOutOfOrder`).
  - A dummy node may carry its parent's label. So the invariant proved is
    that each child's label is contained in its parent's, not strictly
    more specific.
- **`get` descends the other way.** `get` reads the target's bit at the
  node's own length and sends a set bit low (lpm/lpm.go:120-124). Insert
  sends a set bit high. The search for the stored 11.100.123.0/24 in the
  four-prefix test tree therefore misses (`Examples.GetMissesStoredRoute`).
  The test at lpm/lpm_test.go:366-377 expects a hit. So "exact lookup
  finds every stored route" does not hold of the code, and only soundness
  is proved (`Trie.GetNode`). The corrected lookup finds every stored
  route of an ordered trie (`Corrected.FixedGetFinds`).
- **`insertBefore`'s own skip.** The new node's skip is
  `pfx.len - level + 1` (lpm/lpm.go:197). The tests expect `pfx.len`
  (lpm/lpm_test.go:587,600); see `Examples.InsertBeforeExamples`.
- **`insertBefore` picks the side by the new prefix's bit at `level`**,
  not by the old node's bit.
- **`GetSupernet` is capped** at the shorter of the two lengths. This
  only differs from an uncapped longest common run when one prefix
  contains the other. Insertion never calls it on such a pair
  (`Prefixes.SupernetSplits`).

## Model

| member | source | states |
|---|---|---|
| Bits.Wrap8 | lpm/lpm.go:179-186 | a `uint8` difference: values in range are kept, a negative one down to -256 wraps to itself plus 256 |
| Bits.GetBit | lpm/lpm.go:226-228 | a bit can only be set at positions 1 to 32 |
| Bits.GetBitUint32 | lpm/lpm.go:226-228 | `getBitUint32` as written: `32 - pos` computed in `uint8`, false when the shift is 32 or more |
| Bits.GetBitMatchesSource | lpm/lpm.go:226-228 | the model's bit selector equals `getBitUint32` as written (`uint8` subtraction, shift by 32 or more giving 0) at every `uint8` position |
| Bits.GetBitUint32OutOfRange | lpm/lpm.go:226-228 | `getBitUint32` is false at position 0 and at every position beyond 32 |
| Prefixes.Contains | lpm/lpm.go:133-134 | `a.Contains(b)`: `a` is not longer than `b`, and the two agree on `a`'s leading bits |
| Prefixes.GetSupernet | lpm/lpm.go:168 | the supernet is a well-formed prefix containing both arguments |
| Prefixes.CommonLenAtLeast | lpm/lpm.go:168 | addresses agreeing on `c` bits within the bound have a common length of at least `c` |
| Prefixes.ContainsTransitive | lpm/lpm.go:83-91 | containment is transitive, which makes pruning a non-covering subtree safe |
| Prefixes.CoveringPrefixesNest | lpm/lpm.go:83-88 | two prefixes covering the same prefix lie on one chain, the shorter containing the longer |
| Prefixes.ContainsAntisymmetric | lpm/lpm.go:128-134 | two well-formed prefixes containing each other are equal |
| Prefixes.ContainsIsMaskTest | lpm/lpm.go:133-134 | `Contains` is the netmask test: not longer, and equal addresses under the container's netmask |
| Prefixes.CommonLenSpec | lpm/lpm.go:168 | the common length is an agreement of the addresses and, below its bound, the next bit differs |
| Prefixes.CommonLenIs | lpm/lpm.go:168 | agreeing on `c` bits and differing on bit `c + 1` makes the common length `c` |
| Prefixes.SupernetIsLeastCommon | lpm/lpm.go:167-172 | every prefix containing both contains the supernet |
| Prefixes.SupernetSplits | lpm/lpm.go:167-193 | for two prefixes neither containing the other, the supernet is strictly shorter than both and their bits right after it differ |
| Prefixes.SupernetSymmetric | lpm/lpm.go:168 | the supernet does not depend on argument order |
| Trie.NewNode | lpm/lpm.go:27-34 | a new node is childless, carries the given prefix, and stores it unless dummy |
| Trie.NodeInsert | lpm/lpm.go:127-147 | the result is a node; an equal label, dummy or not, returns the node unchanged |
| Trie.InsertLow | lpm/lpm.go:149-156 | the node keeps its label, flag and skip; the high child is untouched; the low child is present afterwards |
| Trie.InsertHigh | lpm/lpm.go:158-165 | the node keeps its label, flag and skip; the low child is untouched; the high child is present afterwards |
| Trie.NewSuperNode | lpm/lpm.go:167-172 | the result is a dummy node labelled with the supernet of the new prefix and the node's label |
| Trie.InsertChildren | lpm/lpm.go:174-193 | the parent keeps its label, flag and skip |
| Trie.InsertBefore | lpm/lpm.go:195-208 | the result is a non-dummy node labelled with the new prefix |
| Trie.Inserted | lpm/lpm.go:64-71 | an empty trie becomes a non-dummy leaf whose skip is the prefix length |
| Trie.SkipIsInformational | lpm/lpm.go:14-20 | changing a node's skip changes neither its routes, nor nesting, nor well-formedness |
| Trie.SuperNodeShape | lpm/lpm.go:167-193 | the dummy supernet node has skip equal to the supernet length and two children on opposite sides. The old subtree sits on the side of its own bit after the supernet, with skip `len - supernet.len - 1` and otherwise unchanged. A leaf for the new prefix sits on the other side with skip `len - supernet.len - 1` |
| Trie.SuperNodeStored | lpm/lpm.go:167-193 | splitting under a supernet stores the old routes plus the new prefix |
| Trie.InsertStored | lpm/lpm.go:127-165 | `insert` returns the node unchanged or stores exactly the old routes plus the new prefix |
| Trie.InsertStoresPrefix | lpm/lpm.go:127-165 | after `insert` the prefix is stored, unless it equals the label of a dummy node of the subtree |
| Trie.InsertOnlyAdds | lpm/lpm.go:64-71 | `LPM.Insert` keeps every stored route and adds at most the new prefix. The prefix is stored afterwards unless it equals a dummy label. If it equals none, the routes are exactly the old ones plus the prefix |
| Trie.InsertIdempotentOnRoutes | lpm/lpm.go:64-71 | inserting a prefix twice stores the same routes as inserting it once |
| Trie.InsertRootCovered | lpm/lpm.go:127-147 | a prefix covering both the old label and the new prefix covers the label `insert` puts in their place |
| Trie.InsertBeforeNested | lpm/lpm.go:195-208 | pushing a covering prefix above a nested subtree keeps it nested |
| Trie.SuperNodeNested | lpm/lpm.go:167-193 | splitting a nested subtree under a supernet keeps it nested |
| Trie.InsertKeepsNested | lpm/lpm.go:127-165 | `insert` keeps every child's label within its parent's |
| Trie.InsertBeforeCanonical | lpm/lpm.go:195-208 | pushing a well-formed prefix above a well-formed subtree keeps all labels well formed |
| Trie.SuperNodeCanonical | lpm/lpm.go:167-193 | splitting adds only well-formed labels when the new prefix is well formed |
| Trie.InsertKeepsCanonical | lpm/lpm.go:127-165 | `insert` of a well-formed prefix adds no malformed label |
| Trie.InsertKeepsDummiesFull | lpm/lpm.go:127-208 | `insert` keeps every dummy node a branch with both children: it creates dummies only as supernets with two children and never empties a slot |
| Trie.InsertedKeepsShape | lpm/lpm.go:64-71 | `LPM.Insert` keeps the trie nested and every dummy node full, and well formed when the prefix is |
| Trie.InsertDescends | lpm/lpm.go:141-165 | under a covering node, the bit of the prefix at `level` picks the side. An empty slot gets a non-dummy leaf with skip `len - level` (wrapped), and an occupied one is inserted into at `level + 1`. The node and its other child are untouched |
| Trie.InsertBeforeShape | lpm/lpm.go:195-208 | the new node has skip `len - level + 1` and exactly one child on the side of the prefix's bit at `level`. That child is the old subtree with only its skip changed to `old.len - level - 1`. The routes are the old ones plus the prefix |
| Trie.InsertChildrenSymmetric | lpm/lpm.go:174-193 | for two leaves parting at the bit after the parent, the placement does not depend on which is the old one |
| Trie.NewSuperNodeSymmetric | lpm/lpm.go:167-193 | splitting two unrelated prefixes gives the same node whichever was already stored |
| Trie.CollectMatches | lpm/lpm.go:73-92 | `lpm` extends the result through its pointer by exactly the matches of the subtree |
| Trie.Matches | lpm/lpm.go:73-92 | what `lpm` appends: only stored (non-dummy) routes covering the needle |
| Trie.StoredWithinRoot | lpm/lpm.go:83-91 | in a nested trie every stored route lies within the root's label |
| Trie.MatchesComplete | lpm/lpm.go:73-92 | in a nested, well-formed trie every stored route covering the needle is a match |
| Trie.MatchesChain | lpm/lpm.go:73-92 | any two matches are nested one in the other |
| Trie.MatchesRootFirst | lpm/lpm.go:78-91 | a reported node comes before, and covers, every match below it; an exact non-dummy hit is the only match of its branch |
| Trie.GetNode | lpm/lpm.go:108-125 | a hit is a non-dummy node labelled exactly with the target, whose routes are among the trie's, so the target is stored |
| Trie.DumpPfxs | lpm/lpm.go:94-106 | the pre-order enumeration lists exactly the stored routes |
| Trie.GetAsWritten | lpm/lpm.go:47-61 | as written, `Get` with more specifics returns nothing; without, it returns the exact hit or nothing |
| Trie.Lookup | lpm/lpm.go:47-61 | non-empty exactly when the exact search hits. The first element is the target. Without more specifics the result is only the stored target. With them, its elements are exactly the routes stored in the hit's subtree. Every element is stored and, in a nested trie, within the target |
| Table.LPM.constructor | lpm/lpm.go:23-25 | a new table is empty, hence valid |
| Table.LPM.Insert | lpm/lpm.go:64-71 | the table stays valid (nested, every dummy node with both children); the root becomes the inserted tree, a first prefix a leaf with skip equal to its length. The routes are unchanged or gain exactly the prefix. The prefix is stored unless it equals an old dummy label; if it equals none, the routes gain exactly the prefix. Nesting and well-formedness are kept |
| Table.LPM.LPM | lpm/lpm.go:37-44 | the answer is the trie's matches, nothing for an empty table, each a stored route covering the needle |
| Table.LPM.Get | lpm/lpm.go:47-61 | the answer is the lookup, nothing for an empty table, each element a stored route within the target |
| Examples.GetBitExamples | lpm/lpm_test.go:489-516 | bit 8 of 10.0.0.0 is clear and bit 8 of 11.0.0.0 is set |
| Examples.SupernetExample | lpm/lpm_test.go:416-447 | the supernet of 11.100.123.0/24 and 10.0.0.0/8 is 10.0.0.0/7 |
| Examples.InsertFirstAndAgain | lpm/lpm_test.go:126-148 | the first prefix becomes a leaf with skip 8, and re-inserting it three times changes nothing |
| Examples.InsertTriangle | lpm/lpm_test.go:150-166 | 10.0.0.0/9 goes low and 10.128.0.0/9 high under 10.0.0.0/8 |
| Examples.InsertDisjoint | lpm/lpm_test.go:168-185 | 10.0.0.0/8 and 11.100.123.0/24 split under a dummy 10.0.0.0/7 with skips 7, 0 and 16 |
| Examples.InsertFour | lpm/lpm_test.go:187-214 | the four insertions give the expected tree, with 10.0.0.0/10 above 10.0.0.0/12, both with skip 1 |
| Examples.InsertSlash25GoesLow | lpm/lpm_test.go:216-247 | as written, 11.100.123.128/25 becomes a low child with skip 16 |
| Examples.NewSuperNodeExample | lpm/lpm_test.go:416-447 | `newSuperNode` on 10.0.0.0/8 and 11.100.123.0/24 gives the expected node |
| Examples.InsertChildrenExample | lpm/lpm_test.go:518-568 | both argument orders place 10.0.0.0/9 low and 10.128.0.0/9 high, each with skip 0 |
| Examples.InsertBeforeExamples | lpm/lpm_test.go:570-610 | the old node goes to the expected side with the expected skip; the new node's skip is 1 |
| Examples.LongestMatchExamples | lpm/lpm_test.go:260-311 | 10.0.0.0/32 matches /8, /10 and /12 in that order; 10.0.0.0/10 matches /8 and /10; an empty trie gives nothing |
| Examples.DumpExample | lpm/lpm_test.go:449-487 | the enumeration is 10.0.0.0/8, /10, /12, then 11.100.123.0/24 |
| Examples.GetExamples | lpm/lpm_test.go:313-395 | the expected answers for a hit, a hit with more specifics, a dummy label, two absent prefixes and an empty table |
| Examples.GetMissesStoredRoute | lpm/lpm_test.go:366-377 | as written, the exact search misses the stored 11.100.123.0/24 |
| Examples.GetMoreSpecificsLosesResults | lpm/lpm.go:53-56 | as written, `Get` with more specifics returns nothing where the intended answer has three routes |
| Examples.InsertTwiceChangesTree | lpm/lpm.go:149-165 | inserting 10.32.0.0/16 a second time splits again and changes the tree, while the stored routes stay the same |
| Examples.InsertDummyLabelIgnored | lpm/lpm.go:128-130 | inserting a prefix equal to a dummy label changes nothing and stores nothing |
| Examples.MatchesOutOfOrder | lpm/lpm.go:141-165 | as written, inserting 10.0.0.0/8, 10.32.0.0/12, 10.32.0.0/16, 10.0.0.0/10 and 10.32.0.0/14 gives a trie whose match for 10.32.0.0/32 lists /16 before /14 |
| Examples.FixedMatchesInOrder | lpm/lpm.go:141-165 | with the corrected insertion, the same five insertions give the match /8, /10, /12, /14, /16 |
| Corrected.FixedNodeInsert | lpm/lpm.go:127-165 | the corrected `insert` returns a node. The side is read at the bit after the node's own label, and a dummy label equal to the prefix becomes a route |
| Corrected.FixedInsertBefore | lpm/lpm.go:195-208 | the corrected `insertBefore` gives a non-dummy node labelled with the new prefix; the old node sits on the side of its own bit after the prefix |
| Corrected.FixedInserted | lpm/lpm.go:64-71 | the corrected `LPM.Insert` always leaves a node at the root |
| Corrected.FixedGetNode | lpm/lpm.go:108-125 | a hit of the corrected `get` is a stored, non-dummy node labelled exactly with the target |
| Corrected.LabelsWithin | lpm/lpm.go:141-165 | in an ordered trie every label lies within the root's, and each subtree's labels lie strictly below the root on that subtree's side |
| Corrected.OrderedIsNested | lpm/lpm.go:141-165 | an ordered trie is nested |
| Corrected.FixedInsertStored | lpm/lpm.go:127-165 | the corrected `insert` stores exactly the old routes plus the prefix, a prefix equal to a dummy label included |
| Corrected.FixedInsertOrdered | lpm/lpm.go:127-165 | the corrected `insert` of a well-formed prefix keeps a well-formed trie ordered: each child strictly more specific than its parent, on the side of its own bit after the parent |
| Corrected.FixedInsertCanonical | lpm/lpm.go:127-165 | the corrected `insert` of a well-formed prefix adds no malformed label |
| Corrected.FixedInsertedShape | lpm/lpm.go:64-71 | the corrected `LPM.Insert` stores exactly the old routes plus the prefix and keeps a well-formed trie ordered |
| Corrected.FixedInsertPresent | lpm/lpm.go:127-165 | in an ordered trie, inserting an already stored route returns the tree unchanged |
| Corrected.FixedInsertIdempotent | lpm/lpm.go:64-71 | the corrected `LPM.Insert` of the same prefix twice gives the same tree as once |
| Corrected.FixedGetFinds | lpm/lpm.go:108-125 | in an ordered trie the corrected `get` hits exactly when the target is stored |
| Corrected.MatchesAscending | lpm/lpm.go:73-92 | in an ordered trie the `lpm` answer has strictly increasing lengths, least specific first |
| Corrected.FixedTrieAnswers | lpm/lpm.go:37-71 | after a corrected insertion the match is exactly the stored covers of the needle, least specific first, and the corrected `get` finds exactly the stored routes |

## Left out

- `node.dump` (lpm/lpm.go:210-224) only prints with `fmt.Printf`, so it is not modelled.
- `Remove` and `LPM.Dump` are called by lpm/lpm_test.go:112,115 but are not defined in lpm/lpm.go, so there is nothing to model.
- The `LPM.nodes` counter (lpm/lpm.go:11) is never read or written.
- The `net.Prefix` package is not part of this model. `Contains`, `GetSupernet`, `Addr` and `Pfxlen` are defined in `prefix.dfy` from their documented meaning. Pointer identity of prefixes is not modelled: results carry prefix values.
- In-place updates of nodes are modelled on values. This is faithful because no node is shared. Every helper but `insertChildren` returns the node that replaces its receiver. `insertChildren` updates only the fresh node its caller returns. Pointer aliasing is not modelled.
- Go's nil-dereference panics (lpm/lpm.go:59, and lpm/lpm.go:109 via 122/124, and `dumpPfxs` on a nil node) are modelled as empty results, not as crashes.
- Table.LPM.Get: it returns `Trie.Lookup`, which follows the corrected `dumpPfxs`. As written, `Get` with more specifics returns nothing; that behaviour is `Trie.GetAsWritten` (first row of "## Findings").
- The `LPM` class uses the insertion and the exact search as written, not the ones in `corrected.dfy`. The corrected definitions are stated and proved on trees only.
- Trie.GetNode: only soundness is stated. Completeness (every stored route is found) does not hold of the code; see `Examples.GetMissesStoredRoute`.
- Trie.MatchesComplete: it assumes well-formed labels (no address bits beyond the length). Without that, an exact hit ends its branch while a differently written copy of the same prefix below it could also cover the needle.

## Findings

| source | as written | input that shows it | evidently intended | confidence | as-written member | corrected member |
|---|---|---|---|---|---|---|
| lpm/lpm.go:53-56, 94-106 | `dumpPfxs` appends to a slice received by value, so `Get(pfx, true)` always returns the caller's nil slice | a trie holding 10.0.0.0/8, 11.100.123.0/24, 10.0.0.0/12, 10.0.0.0/10, asked for 10.0.0.0/8 with more specifics | the hit and every route below it in pre-order: 10.0.0.0/8, 10.0.0.0/10, 10.0.0.0/12 (lpm/lpm_test.go:322-336) | high (not executed) | Trie.GetAsWritten, Examples.GetMoreSpecificsLosesResults | Trie.Lookup |
| lpm/lpm.go:154,163,198 | the level passed to a child is the parent's level plus one, not the bit after the child's label; `insertBefore` places the old node by the new prefix's bit | insert 10.0.0.0/8, 10.32.0.0/12, 10.32.0.0/16, 10.0.0.0/10, 10.32.0.0/14, then match 10.32.0.0/32: the answer is /8, /10, /12, /16, /14 | the match least specific first; each node decides the side by the bit after its own label | medium (not executed) | Examples.MatchesOutOfOrder | Corrected.MatchesAscending |
| lpm/lpm.go:154,163 | a repeated insert reads a deeper bit than the one that placed the prefix and can split again | after 10.0.0.0/8, 10.0.0.0/16 and 10.32.0.0/16, insert 10.32.0.0/16 again: the tree changes and the route is stored twice | a repeated insert changes nothing (lpm/lpm_test.go:137-148) | high (not executed) | Examples.InsertTwiceChangesTree | Corrected.FixedInsertIdempotent |
| lpm/lpm.go:120-124 | `get` reads the target's bit at the node's own length and sends a set bit low | the four-prefix test trie, looking up 11.100.123.0/24 | a stored route is found (lpm/lpm_test.go:366-377) | high (not executed) | Examples.GetMissesStoredRoute | Corrected.FixedGetFinds |
| lpm/lpm.go:128-130 | a prefix equal to a dummy label returns the node unchanged, so the route is not stored | insert 10.0.0.0/7 into the trie of 10.0.0.0/8 and 11.100.123.0/24 | the prefix becomes a route | medium (not executed) | Examples.InsertDummyLabelIgnored | Corrected.FixedInsertStored |
