# The object store's core, as a model with proofs

The repository is the store of a phone's settings and data: values in the manner of
JSON, kept under byte keys that sort as the values do, found again by queries over
indexes, and passed between threads as messages. This project models its core
algorithms in Dafny and proves what they are for.

- `RbShape`, `RbZipper`, `RbInsert…`, `RbDelete…`, `RbRemove`, `RbTree`: the red-black
  tree on nodes whose fields are rewritten in place. A snapshot of the nodes is a map to
  cells, a tree of shapes says what the cells hold, and a tree with a hole is what the
  loops walk down.
- `Values`, `Bytes`, `ValueOrder`: values, their order, and the bytes they are written
  as. `Events`, `Tokens`, `Writer`, `Reader`, `ReadBack`, `ReadErrors`, `Builder`,
  `ObjectReader`, `RoundTrip`, `TokenUse`, `TokenGrowth`: writing, reading back, and the
  tokens that stand for names, over the life of a store.
- `Keys`, `KeySets`, `KeyBuilder`, `Entries`: keys, sets of them in order, and the entries
  of an index. `Clauses`, `IndexPlan`, `QueryOrder`: the clauses of a query, which queries
  an index answers, and in which order. `Plan`, `PlanPage`, `Lists`, `PlanLists`,
  `QueryRanges`, `PlanKeys`: from the clauses, with a value or a list each, to ranges of
  keys. `Scan`, `Paging`: the cursor over an index, and page after page. `IndexUpdate`: an
  index under updates. `Answers`, `IdIndex` join them: the answer to a query, in terms of
  the objects.
- `Dispatch`, `DispatchTurns`, `Dispatcher`: the message dispatcher, as steps of a state and as the
  class whose methods take them. A worker's wait is a state of it, and the part of
  dispatching before the lock is let go and the part after it are two steps.
- `Filter`, `Selection`: the filter that lets selected properties through, and the tree
  of names it is made from.
- `KindGraph`: kinds that extend kinds, the run of an update over them, and the engine
  that makes and drops them.
- `HashLists`, `HashTable`: buckets and one list through the same nodes, shared between
  copies until one of them changes.
- `Base64`: the two alphabets, with and without padding.
- `Json`, `JsonParser`, `JsonWriter`, `JsonReads`, `JsonObjects`: the parser one
  character at a time, the writer, and what comes of one behind the other. `JsonEscapes`,
  `JsonNumbers`, `JsonFirsts`: what the parser takes that the writer does not write.

Where the source changes an object step by step, there is a class with methods, and
each method says which function of the old state the new one is; the lemmas are about
those functions. What the source leaves to others is a parameter: the extractors of an
index, the hash of a key, the reading of a decimal number, whether a write succeeds.
The storage below an index is an ordered set of keys.

What the code does not do is stated as such, each with the exact condition:

- Reading back fails on strings with a NUL (`RoundTrip.RoundTripExactly`,
  `JsonReads.JsonRoundTrip`), and so does the order of encodings
  (`ValueOrder.PlainExactly`).
- The filter loses selected properties when a name has a character below the separator
  (`Selection.SelectedDropped`; exactly when is in `Selection.SelectionExactly`).
- A kind drops kinds that go on listing it, if the root stands first but not alone among
  the kinds it extends (`KindGraph.Kind.AddSuper`, reached in `KindGraph.RootForgotten`).
- Decoding tells a wrong size for one pad too many (`Base64.SizeToldExactly`,
  `Base64.SizeMistold`), and with padding the texts are not in the order of the bytes
  (`Base64.PaddedOrder`).
- An index takes queries it does not answer in the order asked for; the check on
  queries to be found by is what excludes them (`QueryOrder.OrderedExactly`,
  `QueryOrder.CheckNeeded`). With deleted objects included that check refuses every order
  but that by their mark (`Clauses.DeletedUnordered`).
- The three sets of keys of a plan are not of one size, as is asserted, when a list is
  empty in front of an inequality (`PlanKeys.SizesAgree`); the query then finds nothing.
- An index on the mark of deletion alone, without a default for it, takes the query of
  no clause, and finds nothing (`IdIndex.MarkMissing`; which indexes answer that query
  with one entry for each object is in `IdIndex.IdIndexExactly`).
- Escaped surrogate pairs are not joined to one character (`JsonEscapes.HalvesStayApart`),
  and a number with a zero in front is octal (`JsonNumbers.OctalRead`).
- The prefix of a value that is no string is not refused (`Plan.NumberBegins`).

The comment in inc/core/MojObjectSerialization.h:31-33 promises the order of values for
all serialized objects; `ValueOrder.PlainExactly` is what the code keeps of it.

`dafny verify dfyconfig.toml` checks the whole project.

## Model

| member | source | states |
|---|---|---|
| `RbTree.Tree.Put` | src/core/MojRbTreeBase.cpp:249-319 | from any valid tree (search order over the whole tree, black root, no red below red, one black height, right parent links, right size) to a valid tree whose nodes are the old ones without the one of the same key, plus the new node; absent and present keys alike |
| `RbTree.Tree.Del` | src/core/MojRbTreeBase.cpp:330-407 | from any valid tree to a valid tree without exactly the nodes of that key; reports whether there was one |
| `RbInsertSteps.PutBelow` | src/core/MojRbTreeBase.cpp:260-310 | the loop from the dummy head down: ends with the new node in its place, and with every colour, link and key order as it should be, though the helper pointers are stale for up to two rounds after a rotation |
| `RbInsertSteps.PutFlip` | src/core/MojRbTreeBase.cpp:278-282 | the colour flip on the way down keeps the nodes and links and is all that changes |
| `RbInsert.SingleDone` | src/core/MojRbTreeBase.cpp:284-287 | a single rotation at a red clash mends it: same nodes in order, equal black heights, and nothing else touched |
| `RbInsert.DoubleDone` | src/core/MojRbTreeBase.cpp:284-290 | so does the double rotation, with the hole two levels further up |
| `RbInsert.ClashIsRepairable` | src/core/MojRbTreeBase.cpp:284-308 | a red clash is only met while the helper pointers are right, and below a black grandparent |
| `RbDeleteSteps.DelBelow` | src/core/MojRbTreeBase.cpp:339-385 | the loop ends at a node without children, which is red or the only one, with all nodes and the search order kept and the node of the key, if there is one, found on the way |
| `RbDeleteSteps.DelPush` | src/core/MojRbTreeBase.cpp:358-384 | every case of the push, by rotation or colours: afterwards the node or its child on the way is red, with the same nodes, order and black heights |
| `RbDeleteSteps.DelRemove` | src/core/MojRbTreeBase.cpp:386-394 | putting the last node in the place of the found one removes exactly the found one, also when they are the same node or parent and child |
| `RbDelete.BottomIsLeaf` | src/core/MojRbTreeBase.cpp:386-391 | at the bottom the holder has no other child, so that no subtree is lost |
| `RbRemove.SubstOrder` | src/core/MojRbTreeBase.cpp:386-391 | the node moved up fits the search order in its new place |
| `RbShape.Node.Rotate` | src/core/MojRbTreeBase.cpp:62-70 | cell by cell, what a rotation changes |
| `RbShape.Node.RotateDouble` | src/core/MojRbTreeBase.cpp:72-76 | cell by cell, what the double rotation changes |
| `RbShape.Node.Replace` | src/core/MojRbTreeBase.cpp:78-93 | cell by cell, what replacing a node by another changes, also when that one is its child |
| `ValueOrder.OrderEmbedding` | src/core/MojObjectSerialization.cpp:29-191 | comparing the encodings of two plain values byte by byte has the sign of comparing the values, across types, integer widths, signs and nesting |
| `ValueOrder.PlainExactly` | src/core/MojObjectSerialization.cpp:29-191 | a value is plain (no undefined, no NUL in a string) exactly when its encoding keeps its order against every plain value and against its own two normal forms |
| `ValueOrder.PrefixFree` | src/core/MojObjectSerialization.cpp:29-191 | no encoding of a plain value begins the encoding of another |
| `ValueOrder.IntsAgree` | src/core/MojObjectSerialization.cpp:89-122 | the markers and widths of integers keep their order, negative ones in two's complement included |
| `ValueOrder.LeastWidth` | src/core/MojObjectSerialization.cpp:89-122 | an integer that is not negative takes the fewest bytes it can |
| `ValueOrder.Marked` | inc/core/MojObjectSerialization.h:31-53 | one value of each kind, byte by byte |
| `ValueOrder.UndefinedBreaksOrder` | src/core/MojObjectSerialization.cpp:65-70 | a value with an undefined in it is below its normal form and has the same encoding |
| `ValueOrder.NulBreaksOrder` | src/core/MojObjectSerialization.cpp:158-164 | a value compares as equal to itself cut at its NULs, whose encoding is shorter |
| `Bytes.LexicalCompare` | src/core/MojUtil.cpp:250-261 | the loop answers with the difference of the first bytes that differ, or else of the lengths |
| `Writer.ObjectWriter.Visit` | src/core/MojObject.cpp:586-712 | with or without a token table, the bytes after a visit spell the events of the value, each name or string by its text or a token that stands for it; the table is the old one and the names that asked for a token, and the visit fails exactly if a write to the store was refused |
| `Writer.ObjectWriter.WriteString` | src/core/MojObjectSerialization.cpp:171-191 | a name joins the table, if it is new and a token is left, and is written with its token if it has one; a string only uses one there is; without a token the text is written |
| `Writer.ToBytes` | src/core/MojObject.cpp:98-106 | without tokens, the bytes are the encoding of the value |
| `Events.PlainSpelling` | src/core/MojObjectSerialization.cpp:29-191 | the events of a visit, spelled one by one without tokens, are the encoding by cases |
| `TokenGrowth.StoredComesBack` | src/db/MojDbKindState.cpp:106-148 | store a value with the tokens of its kind, let other names take tokens to the last one, open the kind again from what is stored with more names, read: the value comes back, null for undefined |
| `TokenGrowth.Store` | src/core/MojObjectSerialization.cpp:171-191 | exactly which bytes are written, from the table before and the value alone, and which names have joined the table; the stored table still goes with the one in memory; it fails exactly if the store refused a write |
| `TokenUse.NamesTakeTokens` | src/core/MojObjectSerialization.cpp:171-191 | of the bytes Store writes: a name stands there as a token exactly if it is in the table afterwards, where it is unless that has all its 223 names; the token is that of the name |
| `TokenUse.StringsTakeTokens` | src/core/MojObjectSerialization.cpp:171-191 | a string stands there as a token exactly if it is in the table by then and no name before it found that full |
| `TokenUse.NamesJoin` | src/db/MojDbKindState.cpp:106-148 | afterwards every name of the value is in the table or that is full |
| `TokenUse.OnlyNamesJoin` | src/db/MojDbKindState.cpp:106-148 | what has joined the table is the name of some property, and each once |
| `TokenUse.CopyWhole` | src/core/MojTokenSet.cpp:36-57 | the copy names are looked up in is the whole table until a name finds that full, and empty from then on |
| `TokenGrowth.Fetch` | src/core/MojObjectSerialization.cpp:232-386 | bytes that spell a value with a table the present one goes on from are read as that value |
| `TokenGrowth.Reopen` | src/db/MojDbKindState.cpp:165-213 | a kind opened again has all names of the old table under their old tokens; it fails exactly if the store refused the write |
| `RoundTrip.TokenRoundTrip` | src/core/MojObjectSerialization.cpp:232-386 | a value without NULs, written with tokens of a table, is read with any table that goes on from it |
| `RoundTrip.RoundTripExactly` | src/core/MojObjectSerialization.cpp:388-395 | without tokens a sorted value comes back exactly when it has no NUL in a string |
| `RoundTrip.ObjectRoundTrip` | src/core/MojObjectSerialization.cpp:222-230 | one object is read off the front of a buffer and the rest is left, also when its beginning is to be skipped |
| `RoundTrip.ReadBehindHeader` | src/db/MojDbObjectHeader.cpp:153-176 | the reader told to skip the beginning, and a visitor told the properties of a header first: the object built has of each name the stored property, or else that of the header, in the order of names, and the rest of the buffer is left |
| `RoundTrip.CutNoticed` | src/core/MojObjectSerialization.cpp:222-230 | an object cut short anywhere is noticed when read as one object; when read to the end, exactly a cut inside a word is |
| `RoundTrip.FromBytes` | src/core/MojObject.cpp:88-96 | any bytes: an error, or the value the builder makes of the events |
| `ReadErrors.RefusedExactly` | src/core/MojObjectSerialization.cpp:232-453 | any bytes in any state: which error the next word is, if it is one, by conditions on the marker, the state, the tokens and the bytes left |
| `ReadErrors.ExtensionPassed` | src/core/MojObjectSerialization.cpp:316-323 | an extension is passed over by its own size, without an event |
| `ObjectReader.ObjectReader.ReadToEnd` | src/core/MojObjectSerialization.cpp:455-463 | any bytes in any state: the error and the events of the reading, word by word, have been built |
| `ObjectReader.ObjectReader.NextObject` | src/core/MojObjectSerialization.cpp:222-230 | the same for the words of one object, and where the reader stands behind it |
| `ObjectReader.ObjectReader.Next` | src/core/MojObjectSerialization.cpp:232-386 | one word: the error or the event of the state stack, told to a visitor with as many containers open as the stack says |
| `ObjectReader.ObjectReader.ReadIntValue` | src/core/MojObjectSerialization.cpp:397-433 | a number from its marker and its bytes, or the end of the data |
| `ObjectReader.ObjectReader.ReadString` | src/core/MojObjectSerialization.cpp:435-453 | the bytes before the next NUL, which is stepped over, or the end of the data |
| `ObjectReader.DataReader.ReadInt64` | src/core/MojDataSerialization.cpp:126-136 | eight bytes, the greatest first, in two's complement, or the end of the data |
| `ReadBack.WordReads` | src/core/MojObjectSerialization.cpp:232-386 | where the state stack allows an event its word reads as that event, whatever follows |
| `Builder.VisitBuilds` | src/core/MojObjectBuilder.cpp:34-152 | building from the visit of any value puts what its events build where a value is due |
| `Builder.PutAllMeans` | src/core/MojObjectBuilder.cpp:134-152 | properties in any order, some of one name: the object built has of each name the last one, and its names ascend |
| `Builder.SortedRebuilt` | src/core/MojObjectBuilder.cpp:34-152 | a sorted value is built again as it is, null for undefined |
| `Builder.ObjectBuilder.Visit` | src/core/MojObjectBuilder.cpp:34-112 | one event changes the stack, the name and the object as the step function on buildings says |
| `Tokens.KindState.AddPropImpl` | src/db/MojDbKindState.cpp:106-148 | whatever the stored tokens were: a name that is there answers its token, a new one gets the next token and goes behind the names, written first if asked for, and a failed write or the end of the tokens changes nothing |
| `Tokens.KindState.AddProp` | src/db/MojDbKindState.cpp:106-148 | a name has its token or gets the next one behind the last, up to token 255, after which it has none; a failed write changes nothing; the table only grows |
| `Tokens.KindState.Load` | src/db/MojDbKindState.cpp:175-196 | stored names are read in any order; the table is then valid exactly when no token is stored twice |
| `Tokens.KindState.InitTokens` | src/db/MojDbKindState.cpp:165-213 | an invalid stored token is an error; else the names stored keep their tokens, and what comes of it is a table, with the names of the schema as far as there are tokens, exactly if no two stored names had one token |
| `Tokens.ReadAll` | src/db/MojDbKindState.cpp:175-196 | tokens in range make a table without gaps exactly when they are distinct |
| `Tokens.TokenSet.TokenFromString` | src/core/MojTokenSet.cpp:36-57 | the token answered stands for the name in the shared table; the local copy is taken from what adding hands back, which is empty when the shared table had the name already |
| `Tokens.TokenSet.StringFromToken` | src/core/MojTokenSet.cpp:59-68 | a name exactly for the tokens of the local copy, and the one the shared table has |
| `Keys.PrefixRange` | src/db/MojDbKey.cpp:39-88 | the keys from a key up to its increment are exactly those that begin with it, also for the empty key and for nothing but bytes of 255 |
| `Keys.IncrementAbove` | src/db/MojDbKey.cpp:39-52 | the increment is above all that begins with the key, and least so |
| `Keys.Key.IncrementKey` | src/db/MojDbKey.cpp:39-52 | the loop over the bytes in place computes the increment |
| `KeyBuilder.Builder.Keys` | src/db/MojDbKey.cpp:117-165 | the loop without recursion ends and answers exactly the concatenations of one value of each level; none without levels, and none if a level is empty |
| `KeyBuilder.ProductCount` | src/db/MojDbKey.cpp:117-165 | when no value begins another of its level, there are as many keys as the product of the sizes |
| `Plan.RangesMean` | src/db/MojDbQueryPlan.cpp:164-254 | for a clause of one value, every operator and bound: of the keys behind the leading values the ranges hold exactly those whose next value the clause accepts |
| `Plan.StringBegins` | src/db/MojDbQueryPlan.cpp:207-222 | the prefix of a string accepts exactly the strings that begin with it |
| `Plan.NumberBegins` | src/db/MojDbQueryPlan.cpp:207-222 | the prefix of a number is not refused: that of 257 accepts itself only, that of 256 also 511 and not 512 |
| `PlanLists.ListMeans` | src/db/MojDbQueryPlan.cpp:144-353 | for every clause, of one value or of a list: the ranges hold exactly the keys whose next value the clause accepts for one value of its list |
| `PlanLists.ListStays` | src/db/MojDbQueryPlan.cpp:144-254 | the ranges hold no key that does not begin with the leading values |
| `PlanPage.QueryPlan.AddRange` | src/db/MojDbQueryPlan.cpp:256-285 | a range is cut at the page, and left out if nothing of it is there or if the last one contains it |
| `PlanPage.ClippedMeans` | src/db/MojDbQueryPlan.cpp:256-285 | cutting leaves a range what it had on the page and nothing else, in both directions |
| `PlanPage.AddedLaid` | src/db/MojDbQueryPlan.cpp:256-285 | a range at or above all before is added whole, loses no key and keeps them in order |
| `PlanLists.SwallowedAdded` | src/db/MojDbQueryPlan.cpp:256-285 | a range inside the one last added, as of two prefixes one of which begins the other: whatever the page and direction, it is left out, or nothing but an empty range is added, and no key is lost |
| `PlanLists.SecondDropped` | src/db/MojDbQueryPlan.cpp:276-280 | of a list of two such prefixes the range of the first alone is kept |
| `PlanLists.ListAdded` | src/db/MojDbQueryPlan.cpp:144-285 | behind one key, the ranges of a clause of a list are added without loss and in the order one pass needs, though contained ranges are left out |
| `PlanLists.BehindAdded` | src/db/MojDbQueryPlan.cpp:144-285 | so they are behind one key of the leading values after another |
| `PlanPage.ClauseAdded` | src/db/MojDbQueryPlan.cpp:164-285 | so are the one or two ranges of a clause of one value |
| `Lists.LevelOf` | src/db/MojDbQueryPlan.cpp:330-353 | a bound becomes the keys of its values, each once and in order: of an array those of its elements |
| `Lists.KeysInOrder` | src/db/MojDbQueryPlan.cpp:128-136 | the keys the builder yields, gone through in order, are those of the choices of one value for each clause |
| `PlanKeys.InitPlan` | src/db/MojDbQueryPlan.cpp:37-162 | the plan, built with two key builders and a set of prefixes, has the ranges of the query cut at its page, in the other order for a descending one |
| `PlanKeys.RangesBuilt` | src/db/MojDbQueryPlan.cpp:144-162 | the ranges made of the three sets of keys, gone through together, are those of the last clause behind each choice for the others |
| `PlanKeys.SizesAgree` | src/db/MojDbQueryPlan.cpp:147 | the three sets are of one size, as the assertion says, exactly unless the last clause is open and a list before it is empty |
| `QueryRanges.RangesMeet` | src/db/MojDbQueryPlan.cpp:60-162 | of the entries of an index the ranges of a query hold exactly those that meet all its clauses, lists included |
| `QueryRanges.AnswerOrdered` | src/db/MojDbIndex.cpp:357-423 | entries that meet the clauses come in the order of a property that has only equalities of one value before it |
| `QueryRanges.AnswerTogether` | src/db/MojDbIndex.cpp:357-423 | between two entries that meet the clauses by the same choice of their lists an entry meets them too, unless the last clause rules out one value and the entry has it |
| `QueryRanges.NoLists` | src/db/MojDbIndex.cpp:357-423 | without lists there is one choice: the answer is one run of the index, or one with that gap |
| `QueryOrder.AcceptedOrder` | src/db/MojDbQuery.cpp:395-410 | a query an index can answer and the check lets pass is answered in the order of the property it names |
| `QueryOrder.OrderedExactly` | src/db/MojDbIndex.cpp:357-423 | for a property with a clause or behind all: the answer is always in its order exactly when every clause before accepts one value at most, or its own clause does, or some clause accepts none |
| `QueryOrder.CheckNeeded` | src/db/MojDbIndex.cpp:357-423 | an index takes a query of an inequality, and one of a list, whose answer is not in the order asked for; the check refuses both |
| `QueryOrder.ValidateFind` | src/db/MojDbQuery.cpp:395-410 | lets a query pass exactly if it names no order, or every clause but that on the property of the order is an equality of one value |
| `Clauses.WhereClauses.AddClause` | src/db/MojDbQuery.cpp:467-550 | a clause is added as the function on the clauses says, or refused with an error and nothing changed: an array but for equality and prefix, two operations on one property but for a lower and an upper bound |
| `Clauses.AddedMeans` | src/db/MojDbQuery.cpp:467-550 | an added operation is met together with those before it, and no other property is touched; it is refused exactly if it is an array where none may stand, or not the other bound of a lone bound |
| `Clauses.AddingKeepsFormed` | src/db/MojDbQuery.cpp:467-550 | so clauses never come to be that no plan can be made of |
| `Clauses.FormedIsAdded` | src/db/MojDbQuery.cpp:467-550 | and every clause a plan can be made of comes of one such operation or of two |
| `Clauses.DeletedUnordered` | src/db/MojDbQuery.cpp:350-363 | asking for deleted objects too adds a list that accepts either mark, and with it every order by another property is refused |
| `IndexPlan.IndexProps.CanAnswer` | src/db/MojDbIndex.cpp:357-423 | the loop with its counters answers whether the clauses are on the leading properties without a gap, the last alone an inequality, and the order fits |
| `IndexPlan.TakenExactly` | src/db/MojDbIndex.cpp:357-423 | a query with clauses is taken exactly if their names are the leading properties, behind the mark where it has none on that, all but the last are equalities, and the order is none, that of a clause or the next property |
| `IdIndex.BuiltinTakes` | src/db/MojDbKind.cpp:41 | the index every kind begins with, and the same without deleted objects, has these properties and takes the query of no clause and no order |
| `IdIndex.IdIndexExactly` | src/db/MojDbIndex.cpp:529-533 | that query is taken exactly by an index that has one entry for each object, whatever the objects are, and the identifier last |
| `IdIndex.FindsEach` | src/db/MojDbIndex.cpp:357-423 | and it finds as many entries as there are objects that are not deleted, the one of each among them |
| `IdIndex.MarkMissing` | src/db/MojDbIndex.cpp:486-515 | an index on the mark alone, given without a default for it, takes the query too and finds nothing, since only deleted objects hold the mark |
| `IndexPlan.IndexProps.AddBuiltinProps` | src/db/MojDbIndex.cpp:486-515 | the properties keep their order, the identifier comes behind them unless it is there, and the mark of deleted objects in front if the index keeps them; it fails exactly when that mark stands elsewhere |
| `IndexPlan.IndexProps.AddProp` | src/db/MojDbIndex.cpp:102-131 | a repeated property is refused, another is put in front or behind |
| `Scan.IsamQuery.GetKey` | src/db/MojDbIsamQuery.cpp:290-328 | over any index and any ranges in order, overlapping or not, in either direction: the next key in the union of the ranges that has not been passed, with the group of the first range it is in, or none when there is none left; nothing wanted is passed over |
| `Scan.IsamQuery.Seek` | src/db/MojDbIsamQuery.cpp:267-288 | a current key that is already in the range is kept, else the storage is asked; nothing wanted is passed over |
| `Scan.IsamQuery.Get` | src/db/MojDbIsamQuery.cpp:67-88 | at the end what was returned is the whole answer, or the limit was reached; keys without an object are passed over |
| `Scan.IsamQuery.GetImpl` | src/db/MojDbIsamQuery.cpp:180-224 | a key without its object is an error and does not count |
| `Scan.IsamQuery.Count` | src/db/MojDbIsamQuery.cpp:101-132 | the number of objects of the whole answer, up to the greatest 32-bit number, whatever the limit was |
| `Scan.IsamQuery.NextPage` | src/db/MojDbIsamQuery.cpp:134-142 | the key to go on from exactly when the limit was reached |
| `Paging.PagesConcat` | src/db/MojDbIsamQuery.cpp:255-340 | for any limit above zero, either direction and any page to begin from: the pages, each begun where the one before says, are together the whole answer, no key twice and none left out |
| `Paging.CursorReadsPage` | src/db/MojDbIsamQuery.cpp:255-340 | a cursor at its limit, and a fresh one over the ranges cut at the key it hands out, together yield the answer of the first |
| `Paging.PlanFits` | src/db/MojDbQueryPlan.cpp:37-285 | the plan of a query has its ranges in the order one pass needs, and the keys of its clauses on the page |
| `Paging.QueryWants` | src/db/MojDbQueryPlan.cpp:37-285 | an entry is wanted by the plan of a query exactly when it meets all clauses and is on the page |
| `Paging.EntriesPrefixFree` | src/db/MojDbIndex.cpp:663-685 | no entry of an index begins another, of this index or of another one |
| `Paging.IndexFit` | src/db/MojDbIndex.cpp:254-319 | the keys of an index after any updates are fit to be paged through |
| `IndexUpdate.Index.Update` | src/db/MojDbIndex.cpp:254-319 | after any update the keys of an object are entries if it is not deleted or the index has deleted ones too, else none of them is; no entry is anything else; no key was missing, and what is notified is the keys of both versions |
| `IndexUpdate.Index.EntriesAre` | src/db/MojDbIndex.cpp:517-527 | in every valid index: all keys of an object or none, by its mark of deletion |
| `IndexUpdate.KeysApart` | src/db/MojDbIndex.cpp:486-515 | objects with different identifiers have no key in common |
| `IndexUpdate.Index.GetKeys` | src/db/MojDbIndex.cpp:663-685 | one key for every choice of the extracted values, behind the identifier of the index, in order |
| `IndexUpdate.Index.DelKeys` | src/db/MojDbIndex.cpp:602-637 | fails exactly on a key that is not there, unless forced, and counts those |
| `IndexUpdate.Diff` | src/core/MojRbTreeBase.cpp:230-247 | one pass over two ordered sets of keys yields those of the first that are not in the second |
| `Answers.AnswerMatches` | src/db/MojDbIndex.cpp:321-423 | on a page of the answer to a query are exactly the keys of the objects, not deleted unless the index has deleted ones too, whose values meet every clause and the one that keeps deleted ones out |
| `Answers.FoundExactly` | src/db/MojDbQueryPlan.cpp:37-59 | in terms of the query as it was asked: exactly the keys of the objects that meet its clauses and are not deleted, or whatever their mark if it has a clause on that and the index has them |
| `Answers.DeletedNotFound` | src/db/MojDbQueryPlan.cpp:37-59 | a query without a clause on the mark of deletion finds no key of a deleted object, in either kind of index |
| `Answers.AnswerOnce` | src/db/MojDbIndex.cpp:321-423 | they come each once, in the order of the scan |
| `Answers.AnswerInOrder` | src/db/MojDbIndex.cpp:321-423 | and in the order of the property the query names, if it passed the check |
| `Answers.AnswerPaged` | src/db/MojDbIndex.cpp:321-423 | read page by page with whatever limit, that is what is read |
| `Dispatch.SerialFifo` | src/core/MojMessageDispatcher.cpp:35-145 | in every state of every interleaving, the messages of a name taken for dispatch are those scheduled first, in that order and each once; no two workers are in dispatch for one name; no name has two queues |
| `Dispatch.NoStall` | src/core/MojMessageDispatcher.cpp:35-145 | with a worker and no stop, work that is scheduled finds a worker that is not waiting for a signal, though giving a queue back signals nobody |
| `Dispatch.Drained` | src/core/MojMessageDispatcher.cpp:79-145 | when the last worker leaves after the stop, every message scheduled before was taken, as often as it was scheduled |
| `Dispatch.NothingAfter` | src/core/MojMessageDispatcher.cpp:35-64 | a message scheduled after that is never taken |
| `Dispatch.StepKeeps` | src/core/MojMessageDispatcher.cpp:35-145 | every step of every thread keeps the invariant these rest on |
| `DispatchTurns.LineMoves` | src/core/MojMessageDispatcher.cpp:35-145 | one step of any thread: only the first name can leave the line of scheduled ones, and one name can join it, at the end |
| `DispatchTurns.MovesUp` | src/core/MojMessageDispatcher.cpp:106-145 | in every run a name in line moves up by one place with each message taken, and never back |
| `DispatchTurns.TurnComes` | src/core/MojMessageDispatcher.cpp:106-145 | after as many messages as there were names in front of it the next one taken is of that name |
| `DispatchTurns.NotTwice` | src/core/MojMessageDispatcher.cpp:106-145 | if a name is served twice, every other has been out of line in between |
| `Dispatcher.MessageDispatcher.Schedule` | src/core/MojMessageDispatcher.cpp:35-64 | the lists and queues change as the step of a state says: on the queue of the name wherever it is, or a new queue and a signal |
| `Dispatcher.MessageDispatcher.BeginDispatch` | src/core/MojMessageDispatcher.cpp:106-133 | the step of a worker that waits, leaves or takes the first message of the first queue |
| `Dispatcher.MessageDispatcher.EndDispatch` | src/core/MojMessageDispatcher.cpp:134-145 | the step that gives the queue back or drops it, without a signal |
| `Dispatcher.MessageDispatcher.Stop` | src/core/MojMessageDispatcher.cpp:79-88 | the step that stops and wakes all |
| `Dispatcher.MessageDispatcher.FindQueue` | src/core/MojMessageDispatcher.cpp:147-154 | the place of the queue of a name, or none exactly if there is none |
| `Filter.FilterScans` | src/core/MojObjectFilter.cpp:83-305 | for every value and every tree of selected names, in order or not: what comes out is the visit of what one pass over the properties with one moving child leaves; so it is always well bracketed |
| `Filter.FilterProjects` | src/core/MojObjectFilter.cpp:83-305 | in a sorted value, with children in order: the visit of the projection, which looks every name up |
| `Filter.FilterValue` | src/core/MojObjectFilter.cpp:83-305 | the same of the filter with its own stack, states and parents begun late |
| `Filter.ObjectFilter.IncludeParents` | src/core/MojObjectFilter.cpp:265-305 | the containers around that were not begun are begun, from the outermost in |
| `Filter.ObjectFilter.OnPropName` | src/core/MojObjectFilter.cpp:103-150 | moves to the child of the name, and lets the name through if it is selected whole |
| `Filter.ObjectFilter.Take` | src/core/MojObjectFilter.cpp:83-263 | each event changes the state and what was told as the step function says |
| `Selection.SelectionExactly` | src/core/MojObjectFilter.cpp:32-150 | for the tree of any paths: the filter answers with the projection of every sorted value exactly when the children of every node are in order |
| `Selection.SelectionSelects` | src/core/MojObjectFilter.cpp:32-65 | dotted names of characters above the separator, in the order of a set, give a tree in order that selects what goes on from one of them |
| `Selection.OrderBroken` | src/core/MojObjectFilter.cpp:32-65 | with a character below the separator the set's order gives a tree out of order |
| `Selection.SelectedDropped` | src/core/MojObjectFilter.cpp:103-150 | with that tree a selected property is not let through |
| `Selection.Init` | src/core/MojObjectFilter.cpp:32-65 | the loop over the strings and their parts builds the tree of the split paths |
| `Selection.Split` | src/core/MojString.cpp:67-93 | the loop answers the parts between separators |
| `Selection.PartsCut` | src/core/MojString.cpp:67-93 | which those are: a separator ends a part, nothing else does, and no part is empty |
| `KindGraph.Kind.Update` | src/db/MojDbKind.cpp:601-618 | an update reaches exactly the kind and those it extends, directly or not, and updates the indexes of each once |
| `KindGraph.Kind.UpdateIndexes` | src/db/MojDbKind.cpp:601-618 | the recursion with its list of kinds seen: in any state of it each kind is seen once and all that is above a finished one has been seen |
| `KindGraph.Kind.Extends` | src/db/MojDbKind.cpp:73-84 | true exactly if this kind or one it reaches has the identifier; the recursion ends |
| `KindGraph.Kind.AddSuper` | src/db/MojDbKind.cpp:557-579 | keeps the edges acyclic; refuses exactly a kind that extends this one; and the two lists stay each other's mirror exactly when the link is refused, or the root does not stand first, or stands alone |
| `KindGraph.RootForgotten` | src/db/MojDbKind.cpp:557-579 | a run of such calls after which the mirror is broken, those that making and deleting kinds come down to: a kind that names another kind, the root twice and one not made yet; the first is deleted, the last is made |
| `KindGraph.Kind.ClearSupers` | src/db/MojDbKind.cpp:886-905 | all edges of a kind go, from both ends and as often as they are there, and no other |
| `KindGraph.Kind.UpdateSupers` | src/db/MojDbKind.cpp:796-870 | when no kind names the root: the invariant is kept, the kinds above are those named and known, else the root, and the kinds below are those that name this one and that it does not reach |
| `KindGraph.KindEngine.PutKind` | src/db/MojDbKindEngine.cpp:288-438 | the same over the map of kinds, for a new kind and for a known one; so it holds after every run of such calls |
| `KindGraph.KindEngine.DelKind` | src/db/MojDbKindEngine.cpp:313-331 | a kind goes with its edges and the invariant stays |
| `HashTable.Table.Put` | inc/core/internal/MojHashMapInternal.h:33-50 | the map the table stands for gets the value for the key; it stays valid (each node in the chain of its bucket and once in the list, each back reference on the cell that points at the node, at most twice as many nodes as buckets) and a sharer keeps the old map |
| `HashTable.Table.Del` | src/core/MojHashBase.cpp:156-180 | the map loses the key; found says whether it had it; the same invariant and the same for sharers |
| `HashTable.Table.Get` | src/core/MojHashBase.cpp:112-128 | finds the value of the key exactly if the map has it |
| `HashTable.Table.Equals` | src/core/MojHashBase.cpp:182-196 | true exactly if the two maps are the same, whatever their buckets and order |
| `HashTable.Table.EnsureWritable` | src/core/MojHashBase.cpp:198-207 | afterwards the nodes are this table's alone and the map is the same |
| `HashTable.CopyKeeps` | src/core/MojHashBase.cpp:103-110 | a table and its copy: one changes, the other keeps what it had |
| `HashTable.Impl.Clone` | src/core/MojHashBase.cpp:209-237 | the same map on nodes of its own |
| `HashTable.Impl.Realloc` | src/core/MojHashBase.cpp:239-263 | new buckets, all nodes moved to those of their keys, the same map |
| `HashTable.Impl.Put` | src/core/MojHashBase.cpp:68-79 | a node goes to the front of its chain and of the list, and its back reference and the next node's are right |
| `HashTable.Impl.Del` | src/core/MojHashBase.cpp:156-180 | a node leaves its chain and the list, wherever it stands in them |
| `HashTable.Impl.Remove` | src/core/MojHashBase.cpp:44-58 | the cell that points at the node points at the one behind it |
| `HashTable.Table.Clear` | src/core/MojHashBase.cpp:90-94 | the map is empty, and a sharer keeps its nodes |
| `Base64.DecodesEncoded` | src/core/MojUtil.cpp:92-248 | what was encoded is decoded to the same bytes, in both alphabets, padded or not |
| `Base64.DecodedExactly` | src/core/MojUtil.cpp:189-248 | just texts of the alphabet's characters are decoded, but for one or two pads behind them, and not with one character over whole fours |
| `Base64.EncodingOrder` | src/core/MojUtil.cpp:92-153 | without padding the texts of the ordered alphabet compare as the bytes do, across all lengths |
| `Base64.ValueTexts` | src/core/MojObject.cpp:118-130 | so the unpadded texts of two plain values compare as the values do |
| `Base64.PaddedOrder` | src/core/MojUtil.cpp:92-153 | with padding exactly when no pad of one text stands above a character of the other |
| `Base64.PadAboveZero` | src/core/MojUtil.cpp:92-153 | one byte over whole threes, and the same with a zero behind: there it does |
| `Base64.SizeToldExactly` | src/core/MojUtil.cpp:189-248 | the size handed out is the number of bytes written exactly when the pads do not begin another four characters |
| `Base64.SizeMistold` | src/core/MojUtil.cpp:189-248 | whole threes of bytes with one pad too many: decoded, but three too many are told, so that the assertion at the end fails |
| `Base64.SizeToldEncoded` | src/core/MojUtil.cpp:189-248 | for what was encoded it is right |
| `Base64.EncodeImpl` | src/core/MojUtil.cpp:106-153 | the loop writes the encoding and nothing behind it, or nothing at all if there may be too little room |
| `Base64.DecodeImpl` | src/core/MojUtil.cpp:189-248 | the loop writes the decoded bytes and nothing behind them; refuses a bad character and a lone last one |
| `Base64.OrderedSound` | src/core/MojUtil.cpp:92-170 | the table of values inverts the ordered alphabet |
| `Base64.MimeSound` | src/core/MojUtil.cpp:100-187 | and that of section 4 of RFC 4648 |
| `Base64.MimeCodes` | src/core/MojUtil.cpp:100-104 | that alphabet is table 1 of RFC 4648 |
| `JsonReads.JsonRoundTrip` | src/core/MojJsonParser.cpp:86-474 | the text of a value without decimals is read as the value's events exactly when no string has a NUL and containers go no deeper than 31; deeper ones are refused as too deep |
| `JsonObjects.JsonObjectRoundTrip` | src/core/MojObject.cpp:69-86 | so a sorted value without decimals comes back, null for undefined, exactly under that condition |
| `JsonObjects.JsonRebuilt` | src/core/MojObject.cpp:69-86 | with names in any order, and repeated ones, it comes back as its visit builds it |
| `JsonEscapes.CharsRead` | src/core/MojJsonParser.cpp:291-303 | for every number below 0x10000: the bytes written for it are the ones a decoder by the table of section 3 of RFC 3629 reads as that number, and there are no others |
| `JsonEscapes.UnicodeEscape` | src/core/MojJsonParser.cpp:282-312 | in a string or a name, a backslash, a u and four hexadecimal digits in either case of letters are read as those bytes; zero, or anything else than such digits, is refused |
| `JsonEscapes.HalvesStayApart` | src/core/MojJsonParser.cpp:282-312 | the two halves of a surrogate pair are read as three bytes each and not joined |
| `JsonEscapes.LetterEscape` | src/core/MojJsonParser.cpp:245-281 | a backslash and a letter are read as section 7 of RFC 8259 says, and any other letter is refused |
| `JsonEscapes.BlankPassed` | src/core/MojJsonParser.cpp:121-229 | spaces and both kinds of comments in any sequence are passed over where a value or a separator is due |
| `JsonFirsts.FirstsExactly` | src/core/MojJsonParser.cpp:132-456 | where a value, a name, a colon or a separator is due: which characters are gone on with, among them a bracket behind a comma, and which error the others are |
| `JsonNumbers.NumberRead` | src/core/MojJsonParser.cpp:324-366 | which characters a number goes on with, that a point or an exponent makes it a decimal one, and what is told of it: an integer is told even where it is then refused |
| `JsonNumbers.DecimalRead` | src/core/MojJsonParser.cpp:351-364 | digits without a zero in front are read as the number they are, or as the greatest or least there is |
| `JsonNumbers.OctalRead` | src/core/MojJsonParser.cpp:351-364 | digits behind a zero are read as octal ones |
| `JsonNumbers.NotOctal` | src/core/MojJsonParser.cpp:351-364 | an 8 or a 9 among those ends the number, so that it is refused |
| `Json.ChunksAgree` | src/core/MojJsonParser.cpp:107-474 | however a text is cut into chunks: the same events, the same error and the same state as in one piece |
| `Json.AgainLess` | src/core/MojJsonParser.cpp:107-474 | looking at the same character again lowers a measure, and the depth stays below 32 |
| `Json.OnceKeeps` | src/core/MojJsonParser.cpp:107-474 | every state the parser can get to, on any text, is one it can go on from: depth below 32, places inside the literals, and states to go back to |
| `JsonObjects.ParsedBalanced` | src/core/MojJsonParser.cpp:107-474 | whatever the text, no container is closed that was not opened, and none is left open without an error |
| `JsonObjects.FromJson` | src/core/MojObject.cpp:69-76 | any text: an error, or the value the builder makes of the events |
| `JsonParser.Parser.ParseChunk` | src/core/MojJsonParser.cpp:107-464 | the loop over the characters, with its stack and buffers, does what the run of the step function does |
| `JsonParser.Parser.Take` | src/core/MojJsonParser.cpp:107-464 | a character is looked at until it is taken |
| `JsonParser.Parse` | src/core/MojJsonParser.cpp:86-105 | a text, then a NUL, then whether the parser is at its end |
| `JsonWriter.ToJson` | src/core/MojObject.cpp:78-86 | the writer with its comma flag writes, event by event, the text of the value by cases |
| `JsonWriter.Writer.WriteString` | src/core/MojJsonWriter.cpp:160-202 | runs of bytes and escapes together are the text of the string |
| `JsonWriter.ValueSpelled` | src/core/MojJsonWriter.cpp:60-158 | commas stand between members and nowhere else |
| `JsonWriter.TextClean` | src/core/MojJsonWriter.cpp:60-202 | no control character stands in the text |
| `JsonWriter.EscapedClean` | src/core/MojJsonWriter.cpp:160-202 | just control characters, quotes and backslashes are escaped |
| `JsonReads.IntComesBack` | src/core/MojJsonParser.cpp:351-364 | every 64-bit integer is read from its text, though a leading zero means octal |

## Left out

- The red-black tree's other parts: copy on write, cloning, bounds and iteration, and failing allocations. A key is an integer, its place in the order of the container's comparison.
- The dummy head of a red-black tree is a node of the heap here and not one of the frame.
- KindGraph.Kind.UpdateSupers: asks that no kind names the root, as does `KindGraph.KindEngine.PutKind`; without that the lists can lose their mirror, and `KindGraph.Kind.AddSuper` and `KindGraph.RootForgotten` say when.
- KindGraph.KindEngine.DelKind: the indexes are not built again when the kinds above one change, and permissions, quotas and stored kind objects are not there.
- TokenGrowth.StoredComesBack: says nothing about the read when a write to the store fails, since there is nothing then to read.
- QueryRanges.RangesMeet: strings are in the order of their bytes; leaves out collation, and clauses that search for words or substrings. So do the results that rest on it.
- Plan.RangesMean: leaves out collation and the two operators of search.
- PlanKeys.InitPlan: leaves out collation, tokens of a search and the groups they make.
- QueryRanges.AnswerOrdered: leaves out collation.
- QueryRanges.AnswerTogether: leaves out collation.
- Paging.PlanFits: leaves out collation and the two operators of search.
- Paging.QueryWants: leaves out collation and the two operators of search.
- Answers.AnswerMatches: leaves out collation and the two operators of search, as do the other results of that module.
- PlanPage.QueryPlan.AddRange: the group of a range is always 0, since only a search has others.
- IndexPlan.IndexProps.CanAnswer: leaves out the comparison of the collation of a clause with that of the property of the index.
- Clauses.WhereClauses.AddClause: leaves out collation, and the operators of search, which take arrays as a prefix does or not at all.
- QueryOrder.ValidateFind: the search operator and filters, which are refused as well, are not in the model's queries.
- Scan.IsamQuery.Get: leaves out distinct queries, excluded kinds and the verify mode.
- Scan.IsamQuery.GetImpl: leaves out distinct queries and the verify mode.
- IndexUpdate.Index.Update: failures of the storage, other than a missing key, are left out; of watchers, what is notified is modelled and not who watches.
- Answers.AnswerInOrder: is about entries, by the values in them; an object with several values for a property has several entries.
- Filter.FilterScans: the tree of names is a value, not nodes with pointers.
- Dispatch.Drained: threads are started at once, a signal wakes at least one worker if one waits, and dispatching a message is one step outside the lock.
- JsonReads.JsonRoundTrip: decimals are left out, whose text is read by a function that is a parameter; lines and columns in error messages are left out.
- JsonObjects.JsonObjectRoundTrip: decimals are left out.
- JsonWriter.ToJson: the text of a decimal is left out, and so it is in `JsonWriter.ValueSpelled`.
- JsonObjects.FromJson: the visitor is told the events behind the parse and not during it.
- Reading and printing of decimals; a decimal is its representation.
- HashTable.Table.Put: the hash of a key is a parameter; the hash function itself, failing allocations and iterators are left out.
- Bytes.LexicalCompare: the difference of the lengths is not cut to the width of the result.
- Merging an object into a stored one (src/db/MojDb.cpp), schemas, permissions, quotas, sockets, reactors and the storage engines.
