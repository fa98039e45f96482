# RiverMeta data structures in Dafny

RiverMeta is a streaming engine that runs graphs of processing kids over its own data structures. This
project models the hard ones and proves what they are for. The source is C and C++; what it changes in place
is a class with those fields or an array here, what it loops over is a loop here, and each such method is
proved against a function that says what it computes. The lemmas then say what those functions mean.

| files | source | subject |
|---|---|---|
| Rb*.dfy | src/include/rbtree.h | red-black tree with sentinels, insertion from cached nodes, deletion, range enumeration |
| Ac*.dfy, AhoCorasick.dfy | src/lib/ahocorasick.c | keyword trie, breadth-first failure links, goto/fail search |
| Tuple*.dfy | src/datatypes/wsdt_tuple.h | claim/commit/grow protocol of concurrent calls, label index, nested search |
| Json*.dfy | src/include/cjson.h | JSON parser, printer and minifier (RFC 8259) |
| TwoChoice*.dfy, Lru.dfy, EpochClock.dfy, Sh5*.dfy, StringHash5.dfy | src/include/stringhash5.h | expiring table, sixteen packed items a bucket, with data slots and an epoch in spare bits |
| Sh9a*.dfy, StringHash9a.dfy | src/include/stringhash9a.h | expiring set, 21 digests in sixteen words |
| Graph*.dfy | src/lib/init.c | propagation of datatypes through a graph that may have cycles |
| Pipe*.dfy | src/lib/graphBuilder.cc, src/lib/mimo.c, src/lib/init.c | from a program of pipelines to edges, their validation, and the elimination of variables |
| WsHeap.dfy, Hh*.dfy, HeavyHitters.dfy | src/include/wsheap.h, src/include/heavyhitters.h | heap and frequency estimation |
| StringMatch.dfy | src/lib/stringmatch.c | Horspool search, with and without regard to case |
| ListHash.dfy | src/lib/listhash.c | chained hash table with two rows for a key |

`dafny verify dfyconfig.toml` checks everything.

How to read it:

- Red-black tree. The nodes are cells in a store that the methods rewrite link by link, with the two sentinels.
  A ghost zipper (a context and the subtree at its hole) says which tree the links describe, and ghost places
  on the real line keep the cells of disjoint subtrees apart. `Contents()` is the in-order sequence of nodes.
- Hash tables. The classes hold the packed words. `View()` decodes them to a plain table of lists, and each
  method's `ensures` says that the decoded table takes the step that the plain one takes. The lemmas about runs
  are about the plain tables.
- Tuple protocol. Every call of `add_tuple_member` is a thread that takes one step for each access to shared
  memory, and a run is any schedule of any number of calls.
- JSON. The recursive functions Parse and Print are what the methods of JsonReader and JsonWriter, the loops and
  buffers of the source, are proved to compute. JsonGrammar says how a value may be written, and JsonAccepts what
  is read at all.
- Pipelines. An item is what one step of the visitor puts in the graph. `Wanted` is the multiset of edges that
  should remain, `Extra` what comes on top of it when a program names a stream that the visitor makes up.

What the code does where one might expect something else:

- `RBDelete` leaves the cached maximum and the last inserted node alone, and `RBTreeInsert` the cached minimum;
  the contracts say exactly when they stay right.
- The fail-chain loop of `ac_searchstr` names the keyword of the state's own failure node for every link, and
  stops at the first link that is no keyword. `NothingMissedIff` says for which keywords nothing is ever missed.
- The stored length of a keyword counts one too many, and adds up what earlier duplicates left behind.
- A call that waits on a tuple of the largest size may wait for ever. `ReturnsIff` says which calls can still
  return, and `StrandingRun` gives a run that strands one.
- `wsheap_update` takes the number of a record for its position in the heap; `UpdateOrders` says when that
  restores the heap, and `HeaviestKeyLost` what it can lead to. A record of value 0 is given away without being
  detached from its chain.
- `sh9a_cmp_epoch` compares twice in the same direction and then looks at a bit that is never set;
  `OlderGivesUp` says what that decides.
- Two keys with the default digest can share one choice and not the other, so that one of them is stored twice.
  `OnceIffOrdinary` says for which keys that cannot happen.
- `cJSON_Minify` leaves a text in which a comment or a string is left open; `ClosedIff` is the exact condition. It
  ends a comment between stars too early if its text begins with a slash.
- A key of the list hash that was put in with a null reference is not found, and gets a second record.
- A variable called like a made-up stream (`tempStream00000000`) joins it.
- Kids with long names can share a node; `KeysDiffer` says which.

## Model

| member | source | states |
|---|---|---|
| RbTree.RbTree.constructor | src/include/rbtree.h:161-224 | a new tree is empty and red-black, its pool holds one node more than the size asked for, and no cached node is set |
| RbTree.RbTree.LeftRotate | src/include/rbtree.h:243-278 | the links of the cells around x are rewritten so that the store holds the rotated subtree in the same context; the tree above and the nil sentinel are as before |
| RbTree.RbTree.RightRotate | src/include/rbtree.h:297-331 | the mirror image |
| RbBalance.RotationKeepsOrder | src/include/rbtree.h:226-331 | a rotation leaves the in-order sequence of nodes as it is |
| RbTree.RbTree.InsertFixUp | src/include/rbtree.h:565-604 | the recolouring and rotation loop turns any tree that is red-black but for one red-red edge into a red-black one with the same in-order sequence and a black root; it ends because the depth of the focus falls |
| RbTree.RbTree.InsertFixLeft | src/include/rbtree.h:566-584 | one turn of that loop below a left child keeps the order and moves the only red-red edge up |
| RbTree.RbTree.InsertFixRight | src/include/rbtree.h:585-603 | one turn below a right child |
| RbTree.RbTree.Climb | src/include/rbtree.h:367-382 | climbing from the last inserted node stops at a subtree whose hole positions all have a key range that takes the new key |
| RbTree.RbTree.Descend | src/include/rbtree.h:383-402 | the descent from there ends in a hole between keys not above and keys not below the new key |
| RbTree.RbTree.TreeInsertHelp | src/include/rbtree.h:348-403 | whether by the shortcut behind the cached maximum or by the finger, the new node lands where the keys in order stay sorted, and the cached maximum stays the last node |
| RbKeys.FitsSorted | src/include/rbtree.h:348-403 | a node put in such a hole leaves the in-order keys weakly sorted |
| RbTree.RbTree.RBTreeInsert | src/include/rbtree.h:529-608 | the tree stays red-black, consistently linked and sorted, grows by exactly the one node with the key given, keeps the other keys, and keeps the cached maximum and last node right; a full pool gives null and changes nothing; the cached minimum, which the code does not touch, stays right if and only if the new key is not below it |
| RbTree.RbTree.RBTreeInsertInitial | src/include/rbtree.h:425-507 | the same from an empty tree on, with the cached minimum kept right as well |
| RbTree.RbTree.TreeSuccessor | src/include/rbtree.h:624-647 | the node that comes next in order, or nil |
| RbTree.RbTree.TreePredecessor | src/include/rbtree.h:663-688 | the node that comes before in order, or nil |
| RbTree.RbTree.LastAtMost | src/include/rbtree.h:1025-1036 | the descent by the upper bound ends at the last node whose key is not above it |
| RbTree.RbTree.RBEnumerate | src/include/rbtree.h:1018-1043 | the stack holds exactly the nodes with low <= key <= high, from the highest to the lowest |
| RbTree.RbTree.DeleteStepLeft | src/include/rbtree.h:868-893 | one turn of the delete fix-up for a left child either moves the missing black height up by one or ends at the cached root with a balanced tree |
| RbTree.RbTree.DeleteStepRight | src/include/rbtree.h:894-919 | the mirror image |
| RbTree.RbTree.RBDeleteFixUp | src/include/rbtree.h:863-922 | from a tree short of one black node at the focus the loop with its cached root restores equal black heights and no red-red edge, and keeps the order |
| RbTree.RbTree.Splice | src/include/rbtree.h:951-963 | linking the only child of y, or nil, to the parent of y takes exactly y out of the store; the child or nil gets that parent |
| RbTree.RbTree.Transplant | src/include/rbtree.h:973-984 | y takes over the colour, children and parent of z, and the store holds the tree with y in the place of z |
| RbTree.RbTree.RBDelete | src/include/rbtree.h:939-996 | deleting any node restores every red-black invariant, removes exactly that node from the in-order sequence, gives it back to the pool and keeps the keys and the cached minimum right; the cached maximum and last node are left as they are, so they stay right if and only if the node is neither of them |
| RbTree.FingersLost | src/include/rbtree.h:939-996 | a run that deletes the only node, after which the cached maximum and last node are outside the tree |
| RbBalance.BalFill | src/include/rbtree.h:863-922 | a balanced subtree of the black height its context needs makes a balanced tree: what each fix-up step is allowed to reason from |
| RbBalance.ShortRedSibling | src/include/rbtree.h:870-875 | a red sibling rotated up leaves the same shortage with a black sibling |
| RbBalance.ShortUp | src/include/rbtree.h:876-879 | with two black nephews the shortage moves to the parent |
| RbBalance.ShortNear | src/include/rbtree.h:881-886 | a red near nephew can be rotated to become the far one |
| RbBalance.ShortFar | src/include/rbtree.h:887-892 | a red far nephew ends the shortage by one rotation |
| AcSuffix.SufIsLongest | src/lib/ahocorasick.c:320-427 | Suf is the longest suffix of a word that is a trie path |
| AcSuffix.StepIsSuf | src/lib/ahocorasick.c:529-605 | following failure links until a character can be read leads from the longest suffix of a text to that of the text with the character |
| AcSuffix.FailWordOfChild | src/lib/ahocorasick.c:367-405 | the longest proper suffix of a child is one such step from that of its parent: the recurrence of the breadth-first pass |
| AcGrow.GrownIsTrie | src/lib/ahocorasick.c:137-160 | a fresh child makes exactly one more word a trie path, and leaves every other node its path |
| AcQueue.ShallowQueued | src/lib/ahocorasick.c:346-405 | in the breadth-first queue every node not deeper than the next one to handle has been queued |
| AcQueue.ExtendQueue | src/lib/ahocorasick.c:346-405 | handling a node and queueing its children keeps the queue duplicate-free, ordered by depth and complete |
| AcSearch.StateIsSuf | src/lib/ahocorasick.c:529-605 | after any part of a text read from the root the state is the longest suffix of that part that is a trie path |
| AcSearch.SearchInChunks | src/lib/ahocorasick.c:529-605 | searching a text in two chunks gives the same state and the same reports after every character as searching it whole |
| AcSearch.ReportsAreMatches | src/lib/ahocorasick.c:564-590 | every callback names a stored keyword that ends where the callback is made |
| AcSearch.AllReportedIff | src/lib/ahocorasick.c:576-590 | all keywords that end at a place are reported there if and only if they are the state or its failure word |
| AcSearch.ChainLengthIs | src/lib/ahocorasick.c:576-590 | the chain calls back for exactly as many failure links as lead to keywords without a gap |
| AcSearch.ReportsCounted | src/lib/ahocorasick.c:564-590 | in a state its own keyword is called back once, and then that of its failure node, as often as that chain goes on |
| AcSearch.NothingMissedIff | src/lib/ahocorasick.c:576-590 | for a set of keywords: no text at all has a keyword missed if and only if no path of the trie ends in a keyword other than itself and its failure word |
| AcSearch.KeywordMissed | src/lib/ahocorasick.c:576-590 | with the keywords abc, bcx and c the c at the end of abc is not reported, since the chain stops at the first link that is no keyword |
| AhoCorasick.AhoCorasick.constructor | src/lib/ahocorasick.c:49-80 | a new trie has one path, the empty one, and no keyword |
| AhoCorasick.AhoCorasick.LoadHelper | src/lib/ahocorasick.c:117-191 | the rest of the keyword becomes a path, the word is recorded unless there is one already, and nothing else changes; the length counter is 0 after a new word and keeps the length of a duplicate, and only a new word is counted |
| AhoCorasick.AhoCorasick.LoadKeyword | src/lib/ahocorasick.c:193-223 | the paths grow by exactly the prefixes of the folded keyword; the keyword is recorded with its user value unless it was there; the length stored is one too many and includes what duplicates since the last new keyword left in the counter; an empty keyword is refused and changes nothing |
| AhoCorasick.FoldsAlike | src/lib/ahocorasick.c:117-191 | two keywords are one exactly if they differ in the case of ASCII letters only, and that only in the mode without regard to case; folding leaves no capital letter there and changes nothing in the other mode |
| AhoCorasick.AhoCorasick.MissesNothingIff | src/lib/ahocorasick.c:529-605 | a loaded automaton keeps different keywords at different nodes, so the callbacks tell them apart, and it misses nothing in any text under exactly that condition |
| AhoCorasick.AhoCorasick.Expand | src/lib/ahocorasick.c:346-405 | the children of a node join the queue, each once, with the right failure links, and no other link changes |
| AhoCorasick.AhoCorasick.Finalize | src/lib/ahocorasick.c:320-427 | for any set of keywords every failure link leads to the node of the longest proper suffix of its path that is a trie path |
| AhoCorasick.AhoCorasick.ReportChain | src/lib/ahocorasick.c:576-590 | the chain of failure links reports as often as nodes in a row are keywords, unless the callback stops it |
| AhoCorasick.AhoCorasick.SearchStr | src/lib/ahocorasick.c:529-605 | for any start state and text the search ends in the state and with the callbacks of the abstract run, or at the first callback that asked to stop; it terminates because bytes are used up or the depth falls |
| TupleProtocol.InitInv | src/datatypes/wsdt_tuple.h:143-187 | a fresh container with any number of calls about to start satisfies the invariant |
| TupleSteps.StepKeepsInv | src/datatypes/wsdt_tuple.h:221-374 | whichever call takes the next step of the claim, commit and grow protocol, the invariant is kept |
| TupleSafety.RunInv | src/datatypes/wsdt_tuple.h:221-374 | so it holds after every schedule of any number of calls |
| TupleSafety.NoSlotClaimedTwice | src/datatypes/wsdt_tuple.h:310-372 | in every run no two calls own one slot of a tuple, and an owned slot is not yet published |
| TupleSafety.PublishedSlotsAreWritten | src/datatypes/wsdt_tuple.h:355-372 | every slot below the published length holds the member of the call that returned success with that slot |
| TupleSafety.SuccessHasOneSlot | src/datatypes/wsdt_tuple.h:355-372 | a call that returned 1 has its member in exactly one published slot of the current tuple, whatever growth came between |
| TupleSafety.GrowthCopiesPublished | src/datatypes/wsdt_tuple.h:221-286 | a growing call copies only members that are committed, in a tuple whose slots are all published |
| TupleSafety.StepAppends | src/datatypes/wsdt_tuple.h:221-374 | no step changes what readers see but a commit, which appends the member of its call |
| TupleSafety.ViewIsCommits | src/datatypes/wsdt_tuple.h:221-374 | over any run the members that readers see are those of the commits in their order |
| TupleLive.StepKeepsLive | src/datatypes/wsdt_tuple.h:221-374 | whichever call takes the next step, every drawn and unpublished slot has a call that will fill it, a held lock has a holder, and a ticket beyond the last slot has a call that will make the tuple grow, if it can |
| TupleReturn.OneOwner | src/datatypes/wsdt_tuple.h:310-372 | in every run a slot whose ticket is drawn and that is not published has exactly one owner |
| TupleReturn.Finish | src/datatypes/wsdt_tuple.h:221-374 | a call that is not stranded can be brought to return by some schedule, whatever state the others are in |
| TupleReturn.StrandedForever | src/datatypes/wsdt_tuple.h:318-350 | a call that waits with a ticket beyond the last slot of the largest size never returns, whatever is scheduled |
| TupleReturn.ReturnsIff | src/datatypes/wsdt_tuple.h:221-374 | in every reachable state a call can still return if and only if it is not stranded |
| TupleFail.FailsOnlyWhenFull | src/datatypes/wsdt_tuple.h:318-350 | in every run a call returns 0 only when the tuple is full and of the largest size, or, behind a pointer, when more tickets were drawn than it has slots |
| TupleReturn.TwoCallsStrandOne | src/datatypes/wsdt_tuple.h:318-350 | when the largest tuple is full and two calls begin, one of them is stranded if the other has drawn the ticket that could still fail |
| TupleReturn.StrandingRun | src/datatypes/wsdt_tuple.h:318-350 | a run from a fresh container in which that happens |
| TupleIndex.RowUpdate | src/datatypes/wsdt_tuple.h:984-994 | an entry put behind a row of the flat index lengthens that row and leaves every other one alone |
| TupleIndex.TupleIndex.constructor | src/datatypes/wsdt_tuple.h:143-187 | a new tuple has no members and an index that agrees with them |
| TupleIndex.TupleIndex.AddSearchLabel | src/datatypes/wsdt_tuple.h:966-995 | the member is entered in the row of its label exactly if the label is indexed and the row has room; no other row changes |
| TupleIndex.TupleIndex.AttachLabels | src/datatypes/wsdt_tuple.h:997-1011 | every row takes the member as often as the label is given, as far as there is room; the result says whether all were entered |
| TupleIndex.TupleIndex.Grow | src/datatypes/wsdt_tuple.h:221-286 | growth to the next size moves every row to its place at the wider stride and keeps its content; at the largest size nothing changes |
| TupleIndex.TupleIndex.AddMember | src/datatypes/wsdt_tuple.h:290-374 | the member list grows by the member exactly if there is room or the tuple can grow; the index then agrees with the members if and only if no row would need more than its room |
| TupleIndex.CarryingFits | src/datatypes/wsdt_tuple.h:966-995 | when no member carries a label twice, no row ever overflows |
| TupleIndex.CarryingIn | src/datatypes/wsdt_tuple.h:966-995 | a row that agrees with the members lists a member exactly if it is there and carries the label |
| TupleIndex.TupleIndex.FindLabel | src/datatypes/wsdt_tuple.h:1031-1057 | the members with the label in the order they were added, or nothing when there are none or the label is not indexed |
| TupleSearch.VisitsArePaths | src/datatypes/wsdt_tuple.h:1193-1224 | a nested search visits a member of a tuple if and only if a path of matching labels leads there |
| TupleSearch.NestedSearch | src/datatypes/wsdt_tuple.h:1193-1224 | the count returned is the sum of what the callback returns over those visits, in their order |
| JsonGrammar.NumeralReads | src/include/cjson.h:212-239 | every number of the grammar (section 6 of RFC 8259), with a fraction and an exponent or without, is read as the mantissa of all its digits and the power of ten that goes with them |
| JsonGrammar.StringReads | src/include/cjson.h:287-349 | every string of the grammar (section 7 of RFC 8259), whatever escapes its characters are written with and in whatever case the hexadecimal digits are, is read as its content |
| JsonGrammar.DocReads | src/include/cjson.h:441-454 | a value written in any way the grammar allows, with any white space around brackets, braces, commas and colons, anywhere in a text, is read as the value, and the parser stops right behind it |
| JsonGrammar.RenderedReads | src/include/cjson.h:408-432 | so every rendering of a value reads back as the value |
| JsonAccepts.ParsedIff | src/include/cjson.h:441-587 | and nothing else is accepted: the parser reads a value up to a place if and only if keywords, numbers, strings, or values separated by commas and colons with white space around them stand there |
| JsonRoundTrip.NumberRoundTrip | src/include/cjson.h:212-258 | the decimal print of any integer reads back as that integer, up to the character behind it |
| JsonRoundTrip.EscapeRoundTrip | src/include/cjson.h:287-392 | the way any character but NUL is written in a string reads back as that character |
| JsonRoundTrip.StringRoundTrip | src/include/cjson.h:287-392 | the quoted print of any NUL-free string reads back as the string |
| JsonRoundTrip.UnicodeRoundTrip | src/include/cjson.h:260-330 | a \u escape, with surrogates beyond the basic plane (section 7 of RFC 8259), becomes the UTF-8 encoding of its code point |
| JsonRoundTrip.Utf8RoundTrip | src/include/cjson.h:324-340 | the bytes written for a code point are well formed (section 4 of RFC 3629) and decode to that code point |
| JsonRoundTrip.ArrayRoundTrip | src/include/cjson.h:474-552 | a printed array reads back as the array, at any depth and in both formats |
| JsonRoundTrip.ObjectRoundTrip | src/include/cjson.h:555-656 | a printed object reads back as the object with its members in order |
| JsonRoundTrip.PrintRenders | src/include/cjson.h:457-471 | what is printed for a value, at any depth and in both formats, is one of its renderings |
| JsonRoundTrip.ValueRoundTrip | src/include/cjson.h:441-471 | a value printed anywhere in a text, at any depth and in both formats, reads back as the value and the parser stops right behind it |
| JsonRoundTrip.PrintThenParse | src/include/cjson.h:408-432 | parsing the print of a value gives the value back and leaves following text unread; with the check for a terminator exactly white space may follow, and the first other character is where it fails |
| JsonRoundTrip.PrintInjective | src/include/cjson.h:457-471 | no two values print alike, whatever the formats |
| JsonMinify.ValueBecomes | src/include/cjson.h:847-861 | minifying takes the formatted print of a value, wherever it stands, to the unformatted one |
| JsonMinify.MinifyPrint | src/include/cjson.h:847-861 | minifying the formatted print of a value gives its unformatted print |
| JsonMinify.ClosedIff | src/include/cjson.h:847-861 | the pointer stays in the text and comes to its terminator if and only if no comment and no string is left open; otherwise some turn of the loop takes it past the terminator |
| JsonMinify.LoneQuote | src/include/cjson.h:857 | the text of a single quote is one where it does |
| JsonPieces.MinifyPieces | src/include/cjson.h:847-861 | a text of tokens (string literals and other characters) and gaps between them (blanks, comments to the end of a line, comments between stars) minifies to the tokens alone |
| JsonPieces.ClosedInPieces | src/include/cjson.h:847-861 | every text in which nothing is left open is such a text, so this says what minifying does to all of them |
| JsonPieces.CommentCutShort | src/include/cjson.h:856 | a comment whose text begins with a slash ends there |
| JsonMinify.Minify | src/include/cjson.h:847-861 | for any terminated text the rewriting of the buffer in place leaves the minified text, terminated, unless a comment or string is left open, where the model stops as the pointer is about to leave the text; nothing behind the old terminator has been touched |
| JsonReader.ReadString | src/include/cjson.h:287-349 | the loop over the characters of a string computes what the specification of strings says, for every text, errors included |
| JsonReader.ReadNumber | src/include/cjson.h:212-239 | the loops over sign, digits, fraction and exponent compute the number, for every text |
| JsonReader.ReadValue | src/include/cjson.h:441-454 | the recursive descent computes ParseValue, for every text |
| JsonReader.ReadArray | src/include/cjson.h:474-498 | arrays, with every way of failing |
| JsonReader.ReadObject | src/include/cjson.h:555-587 | objects, with every way of failing |
| JsonText.SkipSpace | src/include/cjson.h:405 | the position of the first character above the blank |
| JsonWriter.StringLength | src/include/cjson.h:360-367 | the counting pass gives the length of the escaped text |
| JsonWriter.WriteString | src/include/cjson.h:352-392 | a buffer of the counted length takes the quoted text and its terminator, without a write outside |
| JsonWriter.WriteNumber | src/include/cjson.h:242-258 | 21 characters are enough for every 32-bit integer |
| JsonWriter.WriteArray | src/include/cjson.h:501-552 | the length computed for an array suffices for everything written, and what is written is the print |
| JsonWriter.WriteObject | src/include/cjson.h:590-656 | the same for objects |
| JsonWriter.WriteValue | src/include/cjson.h:457-471 | the text written for any value is its print |
| TwoChoice.ProductReturns | src/include/stringhash5.h:1129-1157 | multiplying by the inverse of an odd permute constant brings the low bits of the hash back |
| TwoChoice.ChoicesAgree | src/include/stringhash5.h:1129-1157 | two hashes select the same bucket and raw digest under the first constant if and only if they do under the second |
| Sh5Hash.KeysAgree | src/include/stringhash5.h:1132-1157 | two keys that share a bucket and a digest other than the default in one choice share both choices |
| Sh9aHash.KeysAgree | src/include/stringhash9a.h:866-888 | the same for digests of 24 bits |
| Sh5Lru.ApplyGood | src/include/stringhash5.h:1161-1240 | every operation on a bucket keeps its bins a permutation and its digests distinct |
| Sh5Lru.RunOrdered | src/include/stringhash5.h:1161-1240 | after any run of operations the live items of a bucket stand in the order of their last use |
| Sh5Bucket.StampDecodes | src/include/stringhash5.h:1421-1452 | what set_epoch spreads over bit 27 of the last eight words is what get_epoch puts together |
| Sh5Bucket.SortLru | src/include/stringhash5.h:1161-1199 | the words of a bucket move so that the unpacked list is the old one with one item moved to the front; the epoch bits decode as before and no other word changes |
| Sh5Bucket.SortLruNoEpoch | src/include/stringhash5.h:1202-1240 | the same list where the epoch is about to be rewritten |
| Sh5Bucket.SetStamp | src/include/stringhash5.h:1437-1452 | the epoch written is the one decoded, and no item changes |
| Sh5Bucket.DeleteLru | src/include/stringhash5.h:1669-1679 | the deleted item goes to the end with its bin and no digest, the others close up, the epoch stays |
| Sh5Bucket.LookupBucket | src/include/stringhash5.h:1110-1127 | the first place of the digest, or none |
| Sh5Live.StepValid | src/include/stringhash5.h:1595-1717 | every call keeps every bucket good |
| Sh5Live.StepLive | src/include/stringhash5.h:1595-1717 | the live records after a call are those before that it does not give up and the one it hands out |
| Sh5Live.LastFull | src/include/stringhash5.h:1469-1503 | the record that find_attach takes is live exactly if both buckets are full |
| Sh5Age.ClockKept | src/include/stringhash5.h:1421-1467 | over any run of a created table the clock has ticked once for every limit + 1 new keys, and the stamp of a bucket is what it showed when a new key was last stored there |
| Sh5Age.OlderGivesUp | src/include/stringhash5.h:1421-1503 | of two buckets in use to the last record the one in which no new key has been stored for more ticks takes the new key, and the first in a tie; the clock counts up to 256 |
| Sh5Age.LastGivenUp | src/include/stringhash5.h:1202-1240 | the record such a bucket gives up is its last |
| Sh5Age.ShallowTakes | src/include/stringhash5.h:1469-1503 | otherwise the second bucket takes the new key exactly if the records in use reach deeper in the first |
| Sh5Live.DropCounted | src/include/stringhash5.h:1469-1503 | a live record is given up for a new key if and only if a drop is counted |
| Sh5Live.AfterUnique | src/include/stringhash5.h:1278-1305 | in every run of a created table, whatever the calls, no key with ordinary digests is stored under both its choices |
| Sh5Default.TwinKey | src/include/stringhash5.h:1132-1157 | a key one of whose digests is the default has a twin that shares one choice with it and not the other |
| Sh5Default.StoredTwice | src/include/stringhash5.h:1595-1654 | so some run of a created table stores both choices of such a key |
| Sh5Default.OnceIffOrdinary | src/include/stringhash5.h:1132-1157 | every run of a created table stores a key under one choice at most if and only if neither of its digests is the default |
| TwoChoiceTwin.Twin | src/include/stringhash5.h:1129-1157 | swapping the raw digests zero and default in one product moves the raw digest of the other product by a constant that is neither of them |
| Sh5Live.FindHolds | src/include/stringhash5.h:1278-1305 | after any run of a created table find returns a slot exactly if the slot holds a record of the key |
| Sh5Live.AttachHolds | src/include/stringhash5.h:1595-1654 | the slot that find_attach returns holds a record of the key |
| Sh5Live.FindsAgain | src/include/stringhash5.h:1278-1305 | after any run of a created table: from find_attach on find returns the same slot, over any calls that do not give the record up |
| Sh5Delete.RemovedIsGone | src/include/stringhash5.h:1699-1717 | after any run of a created table a deleted key is not found |
| Sh5Delete.SlotReused | src/include/stringhash5.h:1669-1679 | the slot of a deleted record is the next one its bucket hands out |
| Sh5Live.SlotsDistinct | src/include/stringhash5.h:1595-1654 | two live records never share a data slot |
| Sh5Order.AfterIsRun | src/include/stringhash5.h:1161-1240 | a bucket of the table after any calls is the plain LRU list after the operations those calls do on it |
| Sh5Order.LruOrder | src/include/stringhash5.h:1161-1240 | of two live items of a bucket the one in front was used later |
| Sh5Order.BinsArePermutation | src/include/stringhash5.h:449-456 | every one of the sixteen data slots belongs to some item of the bucket |
| StringHash5.StringHash5.constructor | src/include/stringhash5.h:735-745 | a new table is the created abstract table, with half the buckets for each choice |
| StringHash5.StringHash5.InitBuckets | src/include/stringhash5.h:449-456 | every item is free and owns the bin of its place |
| StringHash5.StringHash5.FindSerial | src/include/stringhash5.h:1278-1305 | the packed words after a find are those of the abstract step, and the slot is the one it finds |
| StringHash5.StringHash5.GetEpoch | src/include/stringhash5.h:1421-1435 | the age of a bucket on the clock of eight bits |
| StringHash5.StringHash5.FindBestBucket | src/include/stringhash5.h:1469-1503 | the second bucket is taken exactly if it is less deep or, both being full, strictly older; a drop is counted exactly if both are full |
| StringHash5.StringHash5.SetEpoch | src/include/stringhash5.h:1437-1452 | the clock ticks when due and the bucket gets its time; no item changes |
| StringHash5.StringHash5.FindAttachSerial | src/include/stringhash5.h:1595-1654 | the packed words after find_attach are those of the abstract step, with its slot; a drop is told with its slot exactly when it is counted |
| StringHash5.StringHash5.DeleteSerial | src/include/stringhash5.h:1699-1717 | the same for delete; it succeeds exactly if find would |
| StringHash5.StringHash5.WalkerInit | src/include/stringhash5.h:2314-2360 | a new walker starts at the first row |
| StringHash5.StringHash5.WalkerNext | src/include/stringhash5.h:2362-2414 | the next row of the walker, after the last one the first again, is walked: the callback is called for every live item and those it does not keep are freed; the cursor moves on by one |
| Sh5Table.WalkSweeps | src/include/stringhash5.h:2362-2414 | as many calls of a walker as there are rows walk every row exactly once, wherever it starts |
| StringHash5.LiveCountIs | src/include/stringhash5.h:2388-2404 | the calls a walker counts are the items in use |
| Sh9aBucket.BuildLeftover | src/include/stringhash9a.h:636-643 | going through the words puts together the five spread digests from their low bytes |
| Sh9aBucket.SortLower | src/include/stringhash9a.h:646-688 | with the spread digests decoded, moving a rank below 16 to the front; the epoch byte stays |
| Sh9aBucket.SortUpper | src/include/stringhash9a.h:707-791 | the same for the ranks 16 to 20, through the low bytes |
| Sh9aBucket.ShiftNew | src/include/stringhash9a.h:945-990 | a new digest comes first and the last of the 21 is lost; the epoch byte stays |
| Sh9aBucket.LookupBucket | src/include/stringhash9a.h:832-862 | the rank of a digest among all 21, or the number of free ranks |
| Sh9aLive.StepValid | src/include/stringhash9a.h:1194-1240 | every call keeps the digests of a bucket distinct and its free ranks at the end |
| Sh9aLive.StepStored | src/include/stringhash9a.h:1194-1240 | the digests stored after a call are those before that it does not drop and the one it stores |
| Sh9aLive.DropCounted | src/include/stringhash9a.h:1194-1240 | short of a flush a stored digest is lost if and only if the call counts a drop |
| Sh9aLive.StoredIsInsertsLessDrops | src/include/stringhash9a.h:1194-1240 | since a flush the stored digests are the successful inserts less the counted drops |
| Sh9aLive.CheckFinds | src/include/stringhash9a.h:1019-1035 | a check succeeds exactly if one of the choices of the key is stored |
| Sh9aLive.ChecksAgain | src/include/stringhash9a.h:1019-1035 | a key that was set is found over any calls that neither drop its digest nor flush |
| Sh9aLive.AfterOneChoice | src/include/stringhash9a.h:866-888 | in every run of a created table, with or without flushes, no key with ordinary digests is stored under both its choices |
| Sh9aDefault.StoredTwice | src/include/stringhash9a.h:1194-1240 | for every key with a default digest some run stores both its choices |
| Sh9aDefault.OnceIffOrdinary | src/include/stringhash9a.h:866-888 | every run of a created table stores a key under one choice at most if and only if neither of its digests is the default |
| Sh9aOrder.AfterIsRun | src/include/stringhash9a.h:646-791 | a bucket of the table after any calls is the plain LRU list after the operations those calls do on it |
| Sh9aOrder.LruOrder | src/include/stringhash9a.h:646-791 | after any run of a created table, of two stored digests of a bucket the one in front was used later |
| Sh9aAge.OlderGivesUp | src/include/stringhash9a.h:1094-1138 | over any run of a created table: of two buckets without a free rank the one in which no new key has been stored for more ticks gives up a digest, and the second in a tie; the clock counts up to 256 |
| Sh9aAge.EmptierTakes | src/include/stringhash9a.h:1194-1240 | otherwise the first bucket takes a new key exactly if it has no more ranks in use |
| StringHash9a.StringHash9a.constructor | src/include/stringhash9a.h:374-408 | a new table is the created abstract table |
| StringHash9a.StringHash9a.Flush | src/include/stringhash9a.h:1565-1571 | every rank is free and the clock is at 1 |
| StringHash9a.StringHash9a.CheckSerial | src/include/stringhash9a.h:1019-1035 | the packed words after a check are those of the abstract step, with its answer |
| StringHash9a.StringHash9a.SetSerial | src/include/stringhash9a.h:1194-1240 | the packed words after a set are those of the abstract step, with its answer |
| Sh9aTable.OlderGivesUp | src/include/stringhash9a.h:1094-1125 | the last bit of a digest is never set, so of two full buckets the first gives up a digest if and only if it is strictly older |
| StringHash9a.StringHash9a.CmpEpoch | src/include/stringhash9a.h:1094-1125 | of two full buckets the strictly older one gives up a digest, and in a tie always the second one |
| StringHash9a.StringHash9a.UpdateEpoch | src/include/stringhash9a.h:1127-1138 | the clock ticks when due and the bucket gets its time; no digest changes |
| GraphOffer.OfferOk | src/lib/init.c:229-405 | offering an out-type along an edge keeps every subscriber an accepted input, local exactly if the threads match, and no (datatype, port) registered twice; nothing is lost |
| GraphOffer.OfferSettles | src/lib/init.c:229-405 | after the offer the kid at the end subscribes to the out-type if it accepts it |
| GraphInit.FreeShrinks | src/lib/init.c:503-542 | every new registration uses up one of finitely many (kid, datatype, port) triples, which is why propagation ends on a cyclic graph |
| GraphInit.InvAlong | src/lib/init.c:503-542 | offering along an edge can unsettle only the node at its end, which is then queued |
| GraphInit.GraphInit.InstanceInput | src/lib/init.c:229-405 | the code for one out-type and one edge does what Offer says, with its return value |
| GraphInit.GraphInit.Subscribe | src/lib/init.c:206-227 | the subscriber is linked once, on the local list exactly if the threads match |
| GraphInit.GraphInit.DatatypeDst | src/lib/init.c:479-500 | every out-type of the node, also one added meanwhile, is settled for the edge |
| GraphInit.GraphInit.InitFromInstance | src/lib/init.c:503-542 | the node and all that its offers reach are settled |
| GraphTrace.InputsAreBrought | src/lib/init.c:503-542 | when nothing is left to offer, a kid has an input exactly if a chain of edges and accepted datatypes brings it there from a source |
| GraphTrace.OutsAreFounded | src/lib/init.c:289-320 | a node has exactly the out-types it declared and those it adds for its inputs |
| GraphTrace.AllWired | src/lib/init.c:229-405 | a kid subscribes to an out-type exactly if it stands at an edge of a node that was reached and accepts the datatype |
| GraphInit.GraphInit.InitFromSources | src/lib/init.c:568-653 | on any graph, cyclic or not, propagation ends with exactly the inputs that chains bring, the out-types declared or added for inputs, and the subscribers that stand at an edge and accept; no subscriber is there twice, and it is local exactly if the threads match |
| WsHeap.PromotedOrdered | src/include/wsheap.h:101-117 | promoting restores a heap that is out of order at one entry and its parent only |
| WsHeap.DemotedOrdered | src/include/wsheap.h:120-146 | demoting restores a heap that is out of order at one entry and its children only |
| WsHeap.PromotedPermutes | src/include/wsheap.h:101-117 | promoting loses no pointer |
| WsHeap.DemotedPermutes | src/include/wsheap.h:120-146 | demoting loses none and leaves the entries behind the count alone |
| WsHeap.InsertOrders | src/include/wsheap.h:152-163 | from any heap, giving the record behind it any value and promoting it makes a heap of one more |
| WsHeap.ReplaceRootOrders | src/include/wsheap.h:178-189 | from any heap, giving the root any new value and demoting it restores the heap |
| WsHeap.RootMinimal | src/include/wsheap.h:178-189 | the root of a heap is minimal |
| WsHeap.SortRunDescends | src/include/wsheap.h:201-209 | sorting any heap leaves it descending |
| WsHeap.SortRunPermutes | src/include/wsheap.h:201-209 | sorting keeps the pointers |
| WsHeap.Promote | src/include/wsheap.h:101-117 | the loop of swaps on the array is Promoted |
| WsHeap.Demote | src/include/wsheap.h:120-146 | the loop of swaps on the array is Demoted |
| WsHeap.SortInPlace | src/include/wsheap.h:201-209 | the array ends as a permutation of itself, descending if it was a heap |
| WsHeap.UpdateOrders | src/include/wsheap.h:165-175 | demoting the position that the record number gives, as the update does, restores the heap if and only if that is where the record stands or its grown value still fits below its position |
| WsHeap.RecordUpdateOrders | src/include/wsheap.h:165-175 | the same in terms of the number of the record |
| WsHeap.UpdateLosesOrder | src/include/wsheap.h:165-175 | a heap of two records that an update leaves out of order |
| HhChains.DetachLinked | src/include/heavyhitters.h:180-198 | unlinking a node leaves its chain, without it, doubly linked |
| HhChains.AttachLinked | src/include/heavyhitters.h:200-213 | a node linked in front of a chain leaves it doubly linked |
| HeavyHitters.HeavyHitters.constructor | src/include/heavyhitters.h:76-107 | nothing is tracked and every node is free |
| HeavyHitters.HeavyHitters.Lookup | src/include/heavyhitters.h:247-256 | the walk along the chain finds the record of a key exactly if there is one |
| HeavyHitters.HeavyHitters.Detach | src/include/heavyhitters.h:180-198 | the node leaves its chain, no other chain changes |
| HeavyHitters.HeavyHitters.Attach | src/include/heavyhitters.h:200-213 | the node joins the chain of its key |
| HeavyHitters.HeavyHitters.ReplaceRoot | src/include/heavyhitters.h:216-243 | the record of the root goes to the new key, what it was worth becomes its starting value, and the heap is demoted from the root |
| HeavyHitters.HeavyHitters.Increment | src/include/heavyhitters.h:247-271 | the tracked values keep summing to the total weight, every key has at most one node and that sits in its own chain, and a value less its starting value is the weight since admission; which branch is taken, and every field of the record, is told; a heap stays one if and only if the key is new or the update restores it, and as long as it is one, only minimal records are given away |
| HhBook.AttachedTwice | src/include/heavyhitters.h:216-243 | a record that is given to another key without being detached, as one of value 0 is, never leaves the chains in order |
| HeavyHitters.EmptyRoot | src/include/heavyhitters.h:247-271 | an increment by nothing can leave such a record at the root of a full table |
| HeavyHitters.HeaviestKeyLost | src/include/heavyhitters.h:247-271 | a run of four increments after which a key of weight 13 has no record while one of value 5 is kept |
| HeavyHitters.Estimate | src/include/heavyhitters.h:247-271 | value less starting value never exceeds the true weight of a key; if every eviction took a minimal record, the true weight never exceeds the value, and no untracked key weighs more than any tracked value |
| StringMatch.StringMatch.Init | src/lib/stringmatch.c:13-36 | the shift table of a needle is valid |
| StringMatch.StringMatch.InitNoCase | src/lib/stringmatch.c:38-72 | the table of both cases of a needle is valid |
| StringMatch.CasesAlike | src/lib/stringmatch.c:60-63 | two characters have one lower case exactly if they are the same or one ASCII letter in both cases |
| StringMatch.StringMatch.FillStep | src/lib/stringmatch.c:32-34 | one more position of the needle is accounted for |
| StringMatch.StringMatch.SkipSafe | src/lib/stringmatch.c:98-103 | no shift passes over a position where the needle matches |
| StringMatch.StringMatch.Find | src/lib/stringmatch.c:84-107 | the first occurrence of the needle, or none exactly when there is none, unless the search comes without a match to a window that ends in a negative character, which is no index of the table; that needs such a window in the haystack |
| StringMatch.StringMatch.FindNoCase | src/lib/stringmatch.c:110-136 | the same with letters of either case taken for each other |
| PipeNames.KeysDiffer | src/lib/graphBuilder.cc:343-347 | two kids are entered under one key if and only if, being of one name, the digits kept of their versions are the same, or, being of different names, one of the names fills the key and the other kid covers it |
| PipeNames.OneAndTen | src/lib/graphBuilder.cc:343-347 | the versions 1 and 10 of a name of sixty characters share a key |
| PipeNames.MungedInjective | src/lib/graphBuilder.cc:343-345 | a kid name and its version can be read back from the two put together |
| PipeNames.TempNamesDiffer | src/lib/graphBuilder.cc:242-243 | no two made-up streams are called alike |
| PipeNames.NumeralStandsFor | src/lib/graphBuilder.cc:242-243 | the digits put in a name stand for the number, are as many as asked for, and begin with a zero only for that |
| PipeProgram.NodesDiffer | src/lib/graphBuilder.cc:343-352 | two kids of a program share a node under exactly that condition; kids whose names fit never do |
| PipeProgram.ProgramTempsApart | src/lib/graphBuilder.cc:235-265 | the bundled sources of a program have a made-up stream each |
| PipeEdges.ParseGraph.CollapseEdges | src/lib/init.c:863-890 | one edge per consumer is appended, in their order, as Joined says; PipeFields.CompiledEdges tells its fields |
| PipeEdges.ParseGraph.Collapse | src/lib/init.c:892-959 | both passes over the edge queue compute Collapsed |
| PipeItems.JoinedIsJoins | src/lib/init.c:863-890 | the list of consumers of a variable gives one edge for each of them, wherever it stands in the queue |
| PipeItems.CollapseIsWanted | src/lib/init.c:892-959 | as a multiset the collapsed edges are the edges between kids and one edge for every producer and consumer of one variable, if and only if the program names no made-up stream |
| PipeItems.WantedIff | src/lib/init.c:892-959 | an edge is among them exactly if a pair of adjacent kids, a bundled source, or a producer and a consumer of one variable accounts for it |
| PipeProgram.ClashIffNamesTemp | src/lib/graphBuilder.cc:235-265 | the clash can be told from the program: one of its variables is called like one of the made-up streams in use |
| PipeProgram.CompiledIsWanted | src/lib/graphBuilder.cc:268-336 | for every program, building and collapsing gives the wanted multiset if and only if no variable is called like a made-up stream |
| PipeProgram.CompiledIff | src/lib/graphBuilder.cc:268-336 | and then an edge is there exactly if an item of the program accounts for it |
| PipeFields.CompiledEdges | src/lib/init.c:863-959 | field by field, for every program: the compiled edges are those between adjacent kids and before a bundle kid, and those from a node that feeds a stream to a kid that reads it, with the port, label, thread transition and placement of the reader |
| PipeFields.NodesApart | src/lib/graphBuilder.cc:339-352 | all kids, those made for bundled variables included, have nodes of their own, as long as their names fit |
| PipeProgram.VisitsSplit | src/lib/graphBuilder.cc:100-123 | what comes later in a list of statements is visited first, and a thread declaration takes the placement away from what comes before it |
| PipeProgram.VisitsOne | src/lib/graphBuilder.cc:112-123 | a pipeline is visited with the placement in force, the body of a thread declaration with its own |
| PipeBuilder.Dispatcher.EnterKid | src/lib/graphBuilder.cc:339-352 | a kid is entered under its name and the number of kids of that name before it |
| PipeBuilder.Dispatcher.CreateVarProcEdge | src/lib/graphBuilder.cc:167-190 | one edge from the variable with the port of the kid or else of the variable, or an error for an unknown variable |
| PipeBuilder.Dispatcher.ProcessKids | src/lib/graphBuilder.cc:317-336 | the kids are entered in order and each is linked to the one before |
| PipeBuilder.Dispatcher.ProcessBundledSource | src/lib/graphBuilder.cc:235-265 | an unbundle kid, a stream made up for the purpose and three edges come between the variable and the first kid; the symbol table is as before |
| PipeBuilder.Dispatcher.ProcessPipeline | src/lib/graphBuilder.cc:268-314 | a pipeline puts in exactly its items; errors are counted exactly if a variable is unknown |
| PipeBuilder.Dispatcher.ProcessStatements | src/lib/graphBuilder.cc:100-123 | statements are visited last one first, and a thread declaration sets the placement for its body and resets it |
| PipeBuilder.BuildGraph | src/lib/graphBuilder.cc:451-485 | there is a graph exactly if something was parsed and every variable is known, and it holds exactly the edges of the program |
| PipeEdges.ParseGraph.ValidateVariables | src/lib/mimo.c:752-794 | whether every variable that an edge leads out of has an edge from a kid into it |
| PipeAssigned.AssignedIff | src/lib/mimo.c:752-794 | which holds if and only if every source variable of the program is the sink of some pipeline or is called like one of the made-up streams in use |
| PipeBuilder.Compile | src/lib/mimo.c:504-523 | there is a graph if and only if something was parsed, every variable is known, there is a pipeline, and every source is assigned; its edges are the compiled ones, and hence those that PipeFields.Expected tells |
| ListHash.AttachedIsAppend | src/lib/listhash.c:225-251 | a record put in the first block with room, or a new one, comes behind all others of its row, and every block but the last stays full |
| ListHash.LookupHolds | src/lib/listhash.c:187-208 | looking in one row of a key and then in the other is looking in the map |
| ListHash.AttachHolds | src/lib/listhash.c:210-268 | a record of a new key in either of its rows makes the rows hold the map with that key, once |
| ListHash.AttachTwice | src/lib/listhash.c:210-268 | a record of a key that has one is a second one |
| ListHash.ListHash.constructor | src/lib/listhash.c:82-112 | a new table holds the empty map |
| ListHash.ListHash.LookupRow | src/lib/listhash.c:115-132 | the first record in a row with the digest and the key |
| ListHash.ListHash.Find | src/lib/listhash.c:187-208 | what the map holds for the key, or null |
| ListHash.ListHash.Attach | src/lib/listhash.c:210-268 | the record goes to the end of the row with fewer records |
| ListHash.ListHash.FindAttach | src/lib/listhash.c:270-305 | the record there is or a new one; every key keeps at most one record if and only if the key had no null reference |
| ListHash.ListHash.FindAttachReference | src/lib/listhash.c:307-341 | the same with the address given |
| ListHash.OwnedOnce | src/lib/listhash.c:344-358 | walking rows, blocks and records comes to every owned record exactly once, with its address |
| ListHash.ListHash.Scour | src/lib/listhash.c:344-358 | the callback is called for every record the table owns, once |
| ListHash.ListHash.Flush | src/lib/listhash.c:361-385 | every owned record is freed once and the table holds nothing |

## Left out

Weaker than a reader may expect:

- RbTree.RbTree.RBTreeInsert: asks that the cached maximum and the last inserted node are right, since the code follows both without a check; RBDelete says when they are, and RbTree.FingersLost is a run after which they are not.
- AcSearch.ReportsAreMatches: is soundness only; the chain of the source does not report every keyword that ends at a place, and AcSearch.NothingMissedIff is the exact condition.
- TupleIndex.TupleIndex.AddMember: the labels of a member are those it has when it is added; tuple_add_member_label, which labels a member later, is not part of the index claims.
- JsonMinify.Minify: says nothing of what happens once the pointer has left the text; JsonMinify.ClosedIff says when it does.
- JsonRoundTrip.ValueRoundTrip: numbers are 32-bit integers, as print_number treats them; a number is mantissa and exponent before it is rounded to a double.
- JsonReader.ReadString: a text is read as followed by NUL characters, where the source would read behind its end after a final backslash; the size of the buffer for the result is not modelled.
- StringMatch.StringMatch.Find: stops where the code would index the shift table with a negative character, and does not say what is read there.
- StringMatch.StringMatch.FindNoCase: the same.
- Sh5Live.FindHolds: is about keys with ordinary digests, as is Sh5Live.FindsAgain; Sh5Default.OnceIffOrdinary shows that others can have two records.
- Sh9aLive.StoredIsInsertsLessDrops: is about runs without sh9a_delete, which wipes parts of other digests.
- GraphInit.GraphInit.InitFromSources: kids decide by themselves, the datatype and the port whether they accept an input, and with which out-types, every time in the same way.
- HeavyHitters.HeavyHitters.Increment: asks that a new key does not take over a record of value 0, after which HhBook.AttachedTwice rules out that the chains are in order; it has no limit on the totals, which the source keeps in 64 bits.
- PipeProgram.CompiledIff: counters are not limited to 32 bits, and kids that share a key (PipeNames.KeysDiffer) are one node.

Not part of the model:

- failed allocations, and the variants of the hash tables that are shared between threads, with their locks
- user keys, comparison and destroy functions of the tree: keys are integers, the comparison is theirs
- keyword removal, the search of files, the skipping search and its choice by threshold, and the alphabet beyond 255 characters of the Aho-Corasick code; the case-insensitive mode folds keywords only, as the source does
- the spinlock build of add_tuple_member, reference counts of members, and the other users of the nested search loop
- in the interleaved protocol: tuple_attach_member_labels (src/datatypes/wsdt_tuple.h:372), which a call runs after its commit and without the lock, so that it races with a growing call that copies the index; TupleIndex has it for one thread
- reordering of memory accesses by a compiler or processor: the steps of a call happen in the order of the text
- doubles, references, editing and duplication of JSON items; children are a list by value, not linked nodes in memory
- the mixing of hash functions: the hash of a key is any number that the key decides
- the data area of stringhash5 records and its callbacks, and jumps to an entry
- deletion from stringhash9a
- flush registration and its order, monitors, shared queues and the check for valid inputs in init.c
- functions, function calls and external variables of the pipeline language, its grammar, and the arguments and placement kept with a kid
- the user data and release callback of heavy hitters, their reset, and heavyhitters_sort around the sort of the heap
- null haystacks and null keys, which the string search and the list hash answer with null
- blocks of the list hash as linked memory: a row holds the sequence of its blocks
- dumping, reading and printing of tables, and the converters and wrappers of the other datatypes: single-branch code
