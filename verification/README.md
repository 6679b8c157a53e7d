# Seamless: models and proofs

Dafny 4.11 models of the stateful and encoded parts of Seamless, each proved against a simple specification.
`dafny verify dfyconfig.toml` checks the whole project.

The parts, with the files that hold them:

- **Eviction costs** (`CostGraph`, `EvictionCost`). `CostGraph` says what the cost of a checksum is on a dependency graph
  that may have cycles, with no memo table. `EvictionCost` is the engine: memo table, reverse index, two interest counters,
  release cascade, dirty worklist. Costs are extended reals.
- **LRU cache and write-back manager** (`NodeRing`, `LruCache`, `WriteBack`). The circular doubly linked list with its hash
  table refines a most-recently-used sequence; the manager above it is a plain dictionary.
- **Mixed data** (`Keys`, `DTypes`, `MixedForm`, `MixedStream`, `MixedCodec`, `MixedFile`, `CodecWitness`). NumPy dtypes and
  their descriptions, form inference with compression of identical items, the byte stream with its offsets, and the framed
  buffer; JSON and `.npy` text are abstract codecs, and `CodecWitness` shows that one codec can serve all values.
- **Paths** (`PathText`, `PathSyntax`). Printing, parsing and joining of expression paths, on strings.
- **Shared evaluation** (`SharedEvaluation`, `ExpressionRegistry`). The protocol as a state machine over atomic sections, and
  the registries as objects that move along it. `BufferSource` is the smaller protocol for shared buffer lookups.
- **Buffer cache and references** (`Ledger`, `BufferEntries`, `EvictionPass`, `BufferHistory`, `BufferCache`,
  `CostedEviction`, `RefHolders`, `ReferenceSystem`). Strong and weak cache, references, publication and pinning over whole
  runs, eviction with the real cost engine, the claims of Cells and Expressions, and the audit. `ReferenceSystem` puts one
  cache, any Cells and Expressions and the shared evaluations together.
- **Conversions** (`ConversionRules`, `Convert`, `ConversionMeaning`, `ConversionResults`, `HashTypes`, `Refusals`,
  `Predictions`, `ConversionWitness`). The rule table and the lazy executor; what each conversion yields, by values and
  buffers alone; the predictor that confirms or refuses conversions from a type word, by what the buffer holds, and whether
  its verdicts come true; and a world in which the assumptions about parsers and serializers are met.
- **Celljoins** (`CellJoin`). Definitions built, read back and evaluated.

Conventions. A checksum is a value with a hex text. `None` in a result stands for an exception, unless a comment says
otherwise. Objects with methods are classes, with ghost state or a specification function that every method keeps up to
date; `Valid()` is what holds between two public calls. Where a dictionary or set is iterated, the model picks members in
any order.

Where the code falls short of its purpose, the model keeps the code and states exactly when it is met:

- A value that fits the length fields comes back from `deserialize(serialize(v))` as it was if and only if: no container in
  it holds a leaf whose dtype has a Unicode string or a subarray of unsigned integers, for such a container cannot be
  written (`DTypes.Describable`); no array without dimensions stands in it, except a byte string on its own; and no NumPy
  integer or finite number stands in it, for these come back as Python's (`MixedFile.RoundTrip`,
  `MixedFile.RestoredIffPreserved`).
- A path comes back from printing if and only if no key that needs brackets contains a colon
  (`PathSyntax.PrintThenParse`).
- Holding a result on an Expression keeps the reference accounting balanced unless the Expression was released and gets the
  result it already has (`RefHolders.HoldIsBalanced`).
- Replacing the result or the input of a Cell that was released keeps the accounting balanced if and only if what is given
  up outweighs what is claimed only where nothing is counted (`RefHolders.Cell.ReplaceResult`,
  `RefHolders.Cell.ReplaceInputRef`, `Ledger.ExchangeIsHarmless`).
- A write that `transfer_write` defers until the buffer is known is lost if and only if the buffer becomes known by a call
  that never writes: a lookup, a tempref, a neutral or a scratch claim (`BufferHistory.WrittenUnlessSilent`).
- What a valid buffer is converted to can be read as the target unless it is code that was never parsed: documents, numbers
  and strings as YAML, strings as Python or IPython, and Python and IPython as each other (`ConversionMeaning.Unvalidated`,
  `ConversionMeaning.ResultIsReadable`, `ConversionWitness.CodeIsNotParsed`).
- A document comes back from text as its canonical form if and only if it is not a string whose text is another JSON document
  (`ConversionResults.DocumentTextDocument`). YAML to plain is listed as guaranteed, but fails for what YAML can say and JSON
  cannot, such as dates (`ConversionResults.GuaranteedSucceeds` leaves it out).
- A conversion that `conversion_feasible` confirms succeeds if and only if it is not from mixed to string of a mixed
  dictionary or list or an array with a dimension (`Predictions.FeasibleComesTrue`). For the null value it confirms everything
  that exists, although null never becomes a number (`Predictions.NullIsNoNumber`). Its other confirmations rest on the
  value, which the word does not show: a complex number or one that is not finite, the text `1.5` as an integer, an integer
  beyond 64 bits, YAML that JSON cannot say, and arrays that the JSON encoder does not take (complex numbers, records) are
  confirmed and fail. `Predictions.Accepts` is the assumption that none of these is at hand.

Assumptions that the statements make explicit: values are trees of what `get_form` accepts (`MixedForm.Accepted`);
concurrent callers of the shared evaluation use distinct member identities; a task is cancelled only by its linger timer;
buffers handed to the cache carry their own checksum; the cost engine is told of lengths and of direct interest by the cache
alone; the codecs of `MixedFile.FaithfulFor`, the evaluator of `PathSyntax.Sound` and the parsers and
serializers of `Refusals.Realistic`, `ConversionMeaning.Fitting` and `Predictions.Accepting` behave as those predicates say.

## Model

| member | source | states |
|---|---|---|
| `CostGraph.CostEquation` | seamless/caching/eviction_cost.py:296-325 | the cost of a checksum is the larger of its download cost and the sum of its dependencies' costs, plus its transformation cost, on any graph, cyclic or not |
| `CostGraph.CostOfDependent` | seamless/caching/eviction_cost.py:303-325 | a checksum with dependencies costs at least its download and at least the sum of its dependencies, each with the transformation on top, and exactly one of the two; it is finite exactly when the sum is |
| `CostGraph.CostOfSource` | seamless/caching/eviction_cost.py:300-325 | without dependencies it costs its download and its transformation |
| `CostGraph.SumIsTotal` | seamless/caching/eviction_cost.py:303-316 | the costs of all dependencies are added, each occurrence counted, and one that is infinite makes the sum infinite |
| `CostGraph.DownloadPrices` | seamless/caching/eviction_cost.py:66-83 | the download cost: an override first, else the price per gigabyte of the profile (1, 10 or 100 units) with its floor (0, 0.001 or 0.01); unknown profiles count as local reads |
| `CostGraph.TransformationPrice` | seamless/caching/eviction_cost.py:86-111 | a tenth of a unit for each CPU second, and nothing if none are recorded |
| `CostGraph.ClampIsCloser` | seamless/caching/eviction_cost.py:58-96 | overrides and CPU times below zero are recorded as zero, and others as they are |
| `CostGraph.OwnCostsArePrices` | seamless/caching/eviction_cost.py:66-111 | own costs exist exactly where the length is known; by default they are one unit per gigabyte and no transformation |
| `CostGraph.OneGigabyteEach` | seamless/caching/eviction_cost.py:300-325 | a concrete cost: a gigabyte that is made from another gigabyte costs one unit |
| `CostGraph.CycleIsInfinite` | seamless/caching/eviction_cost.py:296-299 | a checksum that depends on itself, however indirectly, has infinite cost |
| `CostGraph.FromScratchIsCost` | seamless/caching/eviction_cost.py:296-325 | memo-free recursion guarded by the set of checksums on the path gives the cost, from inside any recursion whose path leads to the checksum |
| `CostGraph.InfiniteIffDoomed` | seamless/caching/eviction_cost.py:288-325 | a cost is infinite exactly when the checksum reaches an unknown length, an infinite override or CPU time, or a dependency cycle |
| `CostGraph.CostIsLocal` | seamless/caching/eviction_cost.py:263-273 | a change at one checksum changes the cost only of checksums that lead to it, so dirtying ancestors suffices |
| `EvictionCost.CostModule.AddInterest` | seamless/caching/eviction_cost.py:170-175 | direct interest goes up by one, nothing else changes, and the books stay consistent |
| `EvictionCost.CostModule.RemoveInterest` | seamless/caching/eviction_cost.py:177-186 | direct interest goes down by one; a tuple or memoized cost disappears exactly where the last interest is lost, through the whole release cascade, which ends on cyclic graphs |
| `EvictionCost.CostModule.DecrementDependencyInterest` | seamless/caching/eviction_cost.py:194-202 | one owed decrement is paid; counters again equal the occurrences in all dependency tuples |
| `EvictionCost.CostModule.MaybeRelease` | seamless/caching/eviction_cost.py:217-221 | a checksum without interest loses its memo and its tuple, and the release continues to its dependencies |
| `EvictionCost.CostModule.DetachDependencies` | seamless/caching/eviction_cost.py:240-250 | the tuple goes, the reverse index is exact again, and each occurrence is counted out once |
| `EvictionCost.CostModule.RegisterDependencies` | seamless/caching/eviction_cost.py:224-238 | the old tuple is detached before the new one counts (so a shared dependency can lose its own tuple); duplicates count twice in interest and once in the index; what leads to the checksum is forgotten |
| `EvictionCost.CostModule.MarkDirtyFrom` | seamless/caching/eviction_cost.py:263-273 | the worklist forgets exactly the checksum and everything that leads to it, and ends on cyclic graphs |
| `EvictionCost.CostModule.MarkDirty` | seamless/caching/eviction_cost.py:259-261 | the same, as a public call that keeps the cache coherent |
| `EvictionCost.CostModule.RegisterBufferLength` | seamless/caching/eviction_cost.py:253-256 | a length that changed dirties exactly the ancestors; one that did not changes nothing |
| `EvictionCost.CostModule.SetDownloadProfile` | seamless/caching/eviction_cost.py:347-349 | a new profile leaves every memoized cost current |
| `EvictionCost.CostModule.OverrideDownloadCost` | seamless/caching/eviction_cost.py:352-354 | an override, finite or infinite, leaves every memoized cost current |
| `EvictionCost.CostModule.RecordTransformationCost` | seamless/caching/eviction_cost.py:357-361 | recorded CPU seconds leave every memoized cost current |
| `EvictionCost.CostModule.GetCost` | seamless/caching/eviction_cost.py:276-286 | after any history the answer equals recomputation from scratch on the current graph, and it is infinite exactly when the checksum is doomed; without interest it is infinite |
| `EvictionCost.CostModule.EnsureCost` | seamless/caching/eviction_cost.py:288-294 | memoized evaluation is exact although results are stored while the recursion is still on the stack |
| `EvictionCost.CostModule.ComputeCost` | seamless/caching/eviction_cost.py:296-325 | one level of evaluation with the early exit at an infinite dependency equals the cost |
| `EvictionCost.OwnStep` | seamless/caching/eviction_cost.py:40-111 | a change of length, override, profile or CPU time can outdate only what leads to its checksum |
| `EvictionCost.RegisterEffect` | seamless/caching/eviction_cost.py:224-238 | the two halves of a registration add up to its overall effect on tuples and memos |
| `NodeRing.Unlink` | seamless/util/pylru.py:289-295 | taking a node out of the circle leaves a circle of the others, in order |
| `NodeRing.LinkLast` | seamless/util/pylru.py:264-271 | a node linked before the head closes a circle with it at the end |
| `NodeRing.MoveBeforeHead` | seamless/util/pylru.py:301-309 | `mtf` moves one node directly before the head, also when it is the head, its neighbour, or the only node |
| `LruCache.LruCache.constructor` | seamless/util/pylru.py:50-69 | a circle of the given size with no item |
| `LruCache.LruCache.TableKeys` | seamless/util/pylru.py:61-69 | the hash table has exactly the keys of the items, and leads to their nodes |
| `LruCache.LruCache.UniqueItems` | seamless/util/pylru.py:61-69 | no key occurs twice among the items |
| `LruCache.LruCache.TableSize` | seamless/util/pylru.py:71-72 | the length of the table is the number of items |
| `LruCache.LruCache.Contains` | seamless/util/pylru.py:82-83 | membership in the most-recently-used sequence |
| `LruCache.LruCache.Peek` | seamless/util/pylru.py:86-88 | a lookup that leaves the order alone |
| `LruCache.LruCache.GetItem` | seamless/util/pylru.py:90-99 | a lookup that moves its item to the front |
| `LruCache.LruCache.SetItem` | seamless/util/pylru.py:108-156 | the item is in front; if the cache was full, exactly the least recently used item is ejected and the callback is told of it |
| `LruCache.LruCache.DelItem` | seamless/util/pylru.py:158-175 | exactly that item goes; the others keep their order |
| `LruCache.LruCache.Pop` | seamless/util/pylru.py:194-203 | the value, or the default if the key is absent, or else a `KeyError`; the item is gone |
| `LruCache.LruCache.PopItem` | seamless/util/pylru.py:205-214 | the most recently used item is returned and removed; `None` when the cache is empty |
| `LruCache.LruCache.SetDefault` | seamless/util/pylru.py:216-221 | the present value, moved to the front, or the default, inserted |
| `LruCache.LruCache.Clear` | seamless/util/pylru.py:74-80 | no items, same circle |
| `LruCache.LruCache.Resize` | seamless/util/pylru.py:251-259 | growing keeps all items; shrinking ejects exactly the least recently used ones, oldest first |
| `LruCache.LruCache.AddTailNode` | seamless/util/pylru.py:263-272 | empty nodes are added at the tail |
| `LruCache.LruCache.RemoveTailNode` | seamless/util/pylru.py:276-295 | nodes leave at the tail, and the callback is told of the items in them |
| `LruCache.EjectedFirst` | seamless/util/pylru.py:276-295 | ejecting a run of items is ejecting the least recently used one first |
| `WriteBack.WriteBackCacheManager.constructor` | seamless/util/pylru.py:399-415 | the manager stands for its store |
| `WriteBack.WriteBackCacheManager.Contains` | seamless/util/pylru.py:430-439 | membership in the dictionary that the manager stands for |
| `WriteBack.WriteBackCacheManager.GetItem` | seamless/util/pylru.py:441-450 | the dictionary's value; the dictionary does not change, although an eviction may write to the store |
| `WriteBack.WriteBackCacheManager.SetItem` | seamless/util/pylru.py:459-462 | the dictionary has the new value; no other write is lost when eviction calls back |
| `WriteBack.WriteBackCacheManager.DelItem` | seamless/util/pylru.py:464-480 | the key is gone from the dictionary; a missing key is reported |
| `WriteBack.WriteBackCacheManager.Resize` | seamless/util/pylru.py:418-419 | the dictionary does not change |
| `WriteBack.WriteBackCacheManager.Clear` | seamless/util/pylru.py:425-428 | cache, dirty set and store are emptied |
| `WriteBack.WriteBackCacheManager.Sync` | seamless/util/pylru.py:506-512 | the store becomes the dictionary, nothing is dirty, and the order in the cache is unchanged |
| `WriteBack.WriteBackCacheManager.Flush` | seamless/util/pylru.py:514-516 | the store becomes the dictionary, nothing is dirty, and the cache is empty |
| `WriteBack.WriteBackCacheManager.Len` | seamless/util/pylru.py:421-423 | the number of keys of the dictionary |
| `WriteBack.EjectMany` | seamless/util/pylru.py:409-415 | any run of ejections leaves the dictionary unchanged and every dirty key cached |
| `WriteBack.PresentIffFound` | seamless/util/pylru.py:430-439 | a key is in the dictionary exactly when the cache or the store has it |
| `MixedForm.ItemFormIsChildForm` | seamless/util/mixed/get_form.py:256-288 | the compression of identical item forms loses nothing: each item's form can be read off again |
| `MixedForm.ScalarForms` | seamless/util/mixed/get_form.py:53-65 | the form of a scalar is the JSON Schema name of its type, and two scalars have the same form exactly if they are of the same type, NumPy numbers and Python numbers counting as one |
| `MixedForm.StorageIsExact` | seamless/util/mixed/get_form.py:153-331 | binary storage is for leaves on their own; a tree is pure-plain exactly if it holds no leaf at any depth |
| `MixedForm.ListForms` | seamless/util/mixed/get_form.py:256-300 | the form of a list says its length, and has one form for all items exactly if all have the same storage and form |
| `MixedForm.DictForms` | seamless/util/mixed/get_form.py:153-178 | the form of a dictionary has exactly one form for each member, with the storage noted exactly for members that hold a leaf |
| `MixedForm.GetForm` | seamless/util/mixed/get_form.py:303-331 | inference yields the storage and the form that the tree has by definition: arrays, records, complex and non-finite scalars are binary, NumPy's integers and finite numbers are plain |
| `MixedForm.GetFormDictPlain` | seamless/util/mixed/get_form.py:153-178 | the two passes over a dictionary record for each member its form, annotated unless it is pure-plain |
| `MixedForm.GetFormListPlain` | seamless/util/mixed/get_form.py:291-300 | lists are pure-plain or mixed-plain, with one form per item or one for all |
| `MixedForm.GetItemForms` | seamless/util/mixed/get_form.py:205-253 | the loop detects exactly whether all items have the same storage and form |
| `MixedForm.AnnotateItems` | seamless/util/mixed/get_form.py:235-253 | the patching pass annotates every item that is not pure-plain |
| `DTypes.DescriptionIffDescribable` | seamless/util/mixed/get_form.py:49-151 | a dtype is read back from the description in a form if and only if it has no Unicode string and no subarray of unsigned integers, at any depth of records |
| `DTypes.DescriptionIsReadBack` | seamless/util/mixed/io/util.py:238-309 | what the description of a dtype is read back as: the same with every Unicode string made a byte string of the same size and every subarray of integers made signed; the recorded size is the size of an item |
| `MixedStream.PlainlyKeeps` | seamless/util/mixed/json_util.py:13-27 | converting NumPy scalars to plain ones, as the JSON encoder does, commutes with zeroing and changes no form, no storage and no binary leaf |
| `MixedStream.PlainHasNoLeaves` | seamless/util/mixed/io/to_stream.py:38-60 | a pure-plain tree contributes no bytes and is not changed by writing or reading |
| `MixedStream.EndsPartition` | seamless/util/mixed/io/to_stream.py:159-174 | the offsets are non-decreasing, cut the byte buffer into exactly the contents of the leaves, and end at its size |
| `MixedStream.BufferSize` | seamless/util/mixed/io/util.py:99-159 | the size read off the form is the total size of the leaves |
| `MixedStream.BufferSizeDebug` | seamless/util/mixed/io/util.py:162-216 | the size read off the data is the same; the assertion that the form describes the dtype of each leaf fails exactly when the dtype of a leaf has a Unicode string or a subarray of unsigned integers |
| `MixedStream.Write` | seamless/util/mixed/io/to_stream.py:38-146 | the final offset is the same size again; the leaves are laid out one after the other, nothing else in the buffer changes, the offsets are recorded, and binary leaves are zeroed |
| `MixedStream.WriteDict` | seamless/util/mixed/io/to_stream.py:100-146 | members are written in sorted key order |
| `MixedStream.LeavesByKey` | seamless/util/mixed/io/to_stream.py:100-116 | a concrete layout: the leaves of a dictionary stand by key, whatever the order of insertion |
| `MixedStream.WriteList` | seamless/util/mixed/io/to_stream.py:62-100 | items are written in order, with compressed or separate forms |
| `Keys.Sort` | seamless/util/mixed/io/to_stream.py:100-116 | `sorted(keys)`: the one strictly increasing listing of a set of strings |
| `Keys.ListingIsUnique` | seamless/util/mixed/io/to_stream.py:100-116 | a set of keys has only one sorted listing, so writer and reader meet the children in the same order |
| `MixedCodec.ReadLeaf` | seamless/util/mixed/io/from_stream.py:72-113 | a binary child is rebuilt from the stretch between two offsets, and one offset is used up |
| `MixedCodec.ReadList` | seamless/util/mixed/io/from_stream.py:34-62 | all items of a list are put back in place |
| `MixedCodec.ReadDict` | seamless/util/mixed/io/from_stream.py:34-62 | all members of a dictionary are put back in place |
| `MixedCodec.ReadPlain` | seamless/util/mixed/io/from_stream.py:34-62 | reading after writing restores the tree and uses up exactly its offsets |
| `MixedFile.IntegerRoundTrip` | seamless/util/mixed/io/to_stream.py:176-188 | a fixed-width little-endian length is read back if it fits |
| `MixedFile.ToStream` | seamless/util/mixed/io/to_stream.py:149-188 | the stream is the framed concatenation of its parts, unless the form of a leaf in a container does not describe its dtype (assertion error) or a length overflows its field; the assertions on sizes never fail |
| `MixedFile.FromStream` | seamless/util/mixed/io/from_stream.py:131-175 | a written stream is read back as the loaded tree, with any codec that reads back the parts of this tree |
| `MixedFile.Serialize` | seamless/util/mixed/io/serialization.py:26-42 | each storage is framed by its own rule |
| `MixedFile.MixedLayout` | seamless/util/mixed/io/serialization.py:26-42 | the bytes of a mixed buffer: magic, storage with a length of one byte, form with one of four, then magic, two lengths of eight bytes, offsets with the emptied tree, and data |
| `MixedFile.LowBytesFirst` | seamless/util/mixed/io/to_stream.py:176-188 | a concrete length in four bytes: the low byte comes first |
| `MixedFile.Deserialize` | seamless/util/mixed/io/serialization.py:45-92 | a serialized buffer is dispatched on its first bytes and comes back as the restored value with its storage; other text is a byte string |
| `MixedFile.RoundTrip` | seamless/util/mixed/io/serialization.py:26-92 | for every accepted value tree, `deserialize(serialize(v))` is the restored value and the inferred storage if `v` can be written, and it is `v` itself if and only if `v` is also preserved |
| `MixedFile.RestoredIffPreserved` | seamless/util/mixed/io/serialization.py:26-92 | the restored value is the original if and only if no array without dimensions and no NumPy number stands in it (an array on its own: with the exception of byte strings) |
| `MixedFile.ZeroDimensionalArrayIsLost` | seamless/util/mixed/io/from_stream.py:11-31 | a concrete value that does not come back: a list with a zero-dimensional array |
| `MixedFile.UnicodeArrayIsRefused` | seamless/util/mixed/io/util.py:162-169 | a concrete value that cannot be written: a list with an array of Unicode strings, which can be written on its own |
| `MixedFile.UnsignedSubarrayIsRefused` | seamless/util/mixed/get_form.py:49-50 | another one: a list with a record that has a subarray of unsigned integers |
| `CodecWitness.FaithfulCodecExists` | seamless/util/mixed/io/serialization.py:26-92 | there is one codec that reads back whatever any value is written as, so the hypothesis of the round trip can be met |
| `PathText.LiteralRoundTrip` | seamless/expression_class.py:25-29 | reading undoes `repr` for integers of any size and ASCII strings, with quotes and escapes |
| `PathSyntax.FindClosingBracket` | seamless/checksum/expression.py:1259-1275 | the index of the first closing bracket outside quotes |
| `PathSyntax.ParsePath` | seamless/checksum/expression.py:1064-1097 | the index loop computes the parsing function on suffixes |
| `PathSyntax.PrintThenParse` | seamless/expression_class.py:25-44 | printing then parsing is the identity if and only if no key that needs brackets contains a colon |
| `PathSyntax.ColonKeyIsLost` | seamless/checksum/expression.py:1278-1280 | a concrete key that is lost: `a:b` |
| `PathSyntax.SliceRoundTrip` | seamless/checksum/expression.py:1288-1305 | a printed slice is read back, with two or three parts |
| `PathSyntax.PrintIsPieces` | seamless/expression_class.py:25-44 | a path built step by step is the concatenation of the texts of its steps |
| `PathSyntax.PieceExamples` | seamless/expression_class.py:25-29 | concrete steps: names stand after dots except at the start, and all else in brackets |
| `PathSyntax.SliceExamples` | seamless/expression_class.py:32-44 | concrete slices, with and without a step |
| `PathSyntax.JoinParses` | seamless/expression_class.py:135-143 | joining is a homomorphism: for a valid p and any q, the fused path parses to the steps of p followed by those of q, and is invalid exactly when q is |
| `PathSyntax.JoinApplies` | seamless/checksum/expression.py:1308-1329 | applying the fused path is applying p and then q |
| `SharedEvaluation.NextKeepsInv` | seamless/checksum/expression.py:187-233 | every section under the expression lock and every callback keeps the invariant of the protocol |
| `SharedEvaluation.SoftCancelDeregisters` | seamless/checksum/expression.py:791-830 | a caller that waits for the active, unfinished evaluation is taken out of its members; the last one of a task moves it from the active to the lingering registry with one more timer scheduled, otherwise it stays active; no other evaluation, registry entry or count changes |
| `SharedEvaluation.SoftCancelOfStranger` | seamless/checksum/expression.py:791-801 | whoever waits for no active, unfinished evaluation of the key changes nothing |
| `SharedEvaluation.JoinAdds` | seamless/checksum/expression.py:311-345 | joining a pending evaluation adds the caller, makes it active, and makes no claims; an asynchronous caller stops its linger timer |
| `SharedEvaluation.JoinStarts` | seamless/checksum/expression.py:628-651 | without a pending evaluation of the key a join starts one, with the caller as its only member, no timer, and one more claim counted on each distinct input |
| `SharedEvaluation.StartLingerStarts` | seamless/checksum/expression.py:825-829 | the scheduled call starts a new timer exactly if nobody waits and the work is not done |
| `SharedEvaluation.ExpireCancels` | seamless/checksum/expression.py:815-822 | a linger timer cancels the evaluation exactly if it lingers, and takes it out of the lingering registry |
| `SharedEvaluation.SettleSets` | seamless/checksum/expression.py:717-726 | settling and abandoning set the future and do nothing else |
| `SharedEvaluation.RetireLeaves` | seamless/checksum/expression.py:334-337 | retiring takes an evaluation out of the active registry and does nothing else |
| `SharedEvaluation.DiscardLeaves` | seamless/checksum/expression.py:778-785 | a discard takes an evaluation out of both registries and stops its timer; its claims are not touched |
| `SharedEvaluation.ReleaseGivesUp` | seamless/checksum/expression.py:80-84 | a release lowers each count by the claims that the evaluation had on it, and leaves it none |
| `SharedEvaluation.EveryRunIsSafe` | seamless/checksum/expression.py:311-356 | in every reachable state: active and lingering keys are disjoint; a pending task is active iff it has members; no member of a pending evaluation is outside the active registry; lingering and expired evaluations have no members; refholder counts equal the claims of the evaluations and of all other holders |
| `SharedEvaluation.UniqueKeeps` | seamless/checksum/expression.py:61-72 | the claims of an evaluation are its inputs, each distinct one exactly once |
| `Ledger.HolderIsBacked` | seamless/reference_lifecycle.py:136-160 | in a balanced accounting every claim of every holder is counted, so no decrement of a live claim is ignored |
| `SharedEvaluation.WaitersKeepInputs` | seamless/checksum/expression.py:58-84 | while anyone waits for a pending evaluation, the cache counts a claim on each of its inputs, whatever others claim and release |
| `SharedEvaluation.OneEvaluationPerKey` | seamless/checksum/expression.py:628-651 | two pending evaluations of one key never have callers at the same time |
| `SharedEvaluation.JoinFindsPending` | seamless/checksum/expression.py:311-345 | a caller joins the pending evaluation of its key, lingering or not |
| `SharedEvaluation.CancelledStaysAlone` | seamless/checksum/expression.py:815-822 | an evaluation cancelled by its linger timer never has members again, in any continuation |
| `SharedEvaluation.LingerEnds` | seamless/checksum/expression.py:811-829 | in every run in which a linger timer of a pending lingering evaluation fires before anyone joins it or its work ends, it is cancelled, has left both registries, and never has members again |
| `SharedEvaluation.LingerCanEnd` | seamless/checksum/expression.py:811-829 | a lingering pending evaluation always has a timer, or a call that will start one |
| `SharedEvaluation.AllReleased` | seamless/checksum/expression.py:80-84 | once every evaluation has released its inputs, the counts are the claims of the other holders |
| `ExpressionRegistry.Registry.HoldInputs` | seamless/checksum/expression.py:61-72 | one neutral claim per distinct checksum, in the buffer cache; nothing is unpinned, written or listed as scratch |
| `ExpressionRegistry.Registry.FindOrCreate` | seamless/checksum/expression.py:628-651 | a pending evaluation of the key is found without new claims, or a new one is made with its claims in the cache |
| `ExpressionRegistry.Registry.JoinEvaluation` | seamless/checksum/expression.py:628-651 | the joining section of all three entry points, as one step of the protocol |
| `ExpressionRegistry.Registry.SoftCancel` | seamless/checksum/expression.py:791-830 | a caller is deregistered iff it waits for the active, unfinished evaluation; the last one of a task moves it to the lingering registry, a synchronous owner stays |
| `ExpressionRegistry.Registry.StartLinger` | seamless/checksum/expression.py:825-829 | a timer is started unless someone rejoined or the work is done |
| `ExpressionRegistry.Registry.Expire` | seamless/checksum/expression.py:815-822 | only an evaluation that is still lingering leaves, and whatever is cancelled has no members and is in no registry |
| `ExpressionRegistry.Registry.Settle` | seamless/checksum/expression.py:717-726 | the shared future is set once |
| `ExpressionRegistry.Registry.Retire` | seamless/checksum/expression.py:334-337 | a finished task leaves the active registry only if it is still the one there |
| `ExpressionRegistry.Registry.Discard` | seamless/checksum/expression.py:778-785 | both registries are cleaned of this evaluation and of no other |
| `ExpressionRegistry.Registry.ReleaseRefholds` | seamless/checksum/expression.py:80-84 | the claims are released from the buffer cache once, however often it is called |
| `ExpressionRegistry.Registry.Abandon` | seamless/checksum/expression.py:787-788 | a task that never ran is settled with a cancellation |
| `BufferCache.BufferCache.Register` | seamless/caching/buffer_cache.py:123-156 | the buffer is filed in the weak cache and in an existing entry, whose size follows; it goes to the writer exactly when this publishes an entry that is marked |
| `BufferCache.BufferCache.Get` | seamless/caching/buffer_cache.py:158-172 | the buffer of an entry, or else the weak one, which is attached; always one of that checksum, and always one for a pinned checksum |
| `BufferCache.BufferCache.EnsureEntry` | seamless/caching/buffer_cache.py:175-219 | the entry is found or created with direct cost interest; a buffer goes to the writer exactly when a non-scratch call publishes the entry |
| `BufferEntries.AcquiredIsExact` | seamless/caching/buffer_cache.py:175-219 | an entry that is there keeps its references, tempref, mark, size and buffer, and gets the buffer at hand if it had none; a new one has no references and the size that is recorded or that the buffer has; any non-scratch call marks it, no other does |
| `BufferEntries.ReleasedIsExact` | seamless/caching/buffer_cache.py:238-247 | an entry that gives up a reference stays exactly while another reference or a tempref of at least 1/128 holds it; if it goes, its buffer is in the weak cache; nothing else is touched |
| `BufferEntries.DemotionIsExact` | seamless/caching/buffer_cache.py:233-247 | an entry can go exactly if it has no reference and its tempref is absent or below 1/128 |
| `BufferCache.BufferCache.Demote` | seamless/caching/buffer_cache.py:238-247 | an entry without references and live tempref goes, its interest ends, and its buffer falls back to the weak cache |
| `BufferCache.BufferCache.Incref` | seamless/caching/buffer_cache.py:249-270 | one more manual reference; the checksum is pinned if its buffer is known |
| `BufferCache.BufferCache.Decref` | seamless/caching/buffer_cache.py:272-284 | one fewer, if there was one; nothing else is unpinned |
| `BufferCache.BufferCache.IncrefRefholder` | seamless/caching/buffer_cache.py:286-315 | one more refholder claim with the bridge set; an owner that asks for publication gets it, now or as soon as the buffer is registered; neutral claims neither publish nor change scratch status |
| `BufferCache.BufferCache.DecrefRefholder` | seamless/caching/buffer_cache.py:317-336 | one fewer claim; the bridge goes with the last one |
| `BufferCache.BufferCache.AddTempref` | seamless/caching/buffer_cache.py:370-415 | one tempref per checksum, created or refreshed, stronger if asked; it never publishes; it fails exactly where decay rates are compared and a fade interval is zero |
| `BufferEntries.RefreshedIsStronger` | seamless/caching/buffer_cache.py:392-415 | a tempref takes over all that is asked for if the new interest is greater or its rate of decay is higher, and else keeps its own; it is refreshed in either case |
| `BufferCache.BufferCache.TransferWrite` | seamless/caching/buffer_cache.py:417-455 | publishes now or once a buffer is known, without a reference |
| `BufferCache.BufferCache.PurgeScratch` | seamless/caching/buffer_cache.py:467-500 | exactly the entries that only a scratch tempref holds go, and weak buffers without an entry |
| `BufferEntries.PurgedIsExact` | seamless/caching/buffer_cache.py:467-500 | purged are entries with a scratch tempref, no manual reference and no bridge, and weak buffers without an entry |
| `BufferCache.BufferCache.CollectWeak` | seamless/caching/buffer_cache.py:96-99 | garbage collection of weak entries at any time touches no entry |
| `BufferCache.BufferCache.StrongMemoryUsage` | seamless/caching/buffer_cache.py:513-518 | the sum of the known sizes |
| `BufferCache.BufferCache.RunEvictionOnce` | seamless/caching/buffer_cache.py:537-608 | for any answers of the cost engine: faded temprefs go first; both returned totals equal actual memory; the pass is greedy; every lookup finds the same as before; nothing pinned is unpinned |
| `BufferCache.BufferCache.RelievePressure` | seamless/caching/buffer_cache.py:554-583 | what goes is unprotected and finite in score, at most the score of every candidate that stays; usage ends within the cap unless only protected or infinite entries remain; the last eviction was needed |
| `BufferEntries.ScoreIsLossPerGigabyte` | seamless/caching/buffer_cache.py:520-535 | the score times the size in gigabytes is the cost times the interest: manual references, one for refholders, and what is left of the tempref; it is infinite exactly for infinite costs and unknown or empty sizes |
| `EvictionPass.FadingIsExact` | seamless/caching/buffer_cache.py:541-553 | the first loop drops exactly the temprefs below 1/128, and the entries that no reference holds with them |
| `EvictionPass.ProgressEnds` | seamless/caching/buffer_cache.py:554-583 | evicting a prefix of the sorted candidates is exact and greedy |
| `EvictionPass.SortByScore` | seamless/caching/buffer_cache.py:563-564 | each candidate once, in order of rising score |
| `EvictionPass.GreedyContinues` | seamless/caching/buffer_cache.py:233-236 | protected entries outlive a pass |
| `BufferEntries.MemoryWithout` | seamless/caching/buffer_cache.py:513-518 | memory is the size of any one entry plus that of the others, in whatever order they are added |
| `CostedEviction.RunEvictionOnce` | seamless/caching/buffer_cache.py:537-608 | the pass with the real cost engine is greedy by the costs that a computation from scratch on the dependency graph gives; the interest and the lengths in the engine stay those of the cache |
| `CostedEviction.AskCosts` | seamless/caching/buffer_cache.py:520-535 | asking for the costs of all candidates changes none of them |
| `CostedEviction.TellDropped` | seamless/caching/buffer_cache.py:238-247 | the engine is told of every entry that is gone, once; what it still knows of dependencies is unchanged |
| `BufferHistory.WrittenAtMostOnce` | seamless/caching/buffer_cache.py:182-219 | over every run of public calls, a buffer is handed to the writer at most once in the life of its strong entry, by the call that publishes the entry; and a published entry stays published |
| `BufferHistory.WrittenOnlyIfAsked` | seamless/caching/buffer_cache.py:417-455 | over every run, nothing is written without a non-scratch claim or a transfer write in the life of the entry |
| `BufferHistory.AskedStaysMarked` | seamless/caching/buffer_cache.py:182-219 | over every run, once a non-scratch claim or a transfer write has asked for a checksum, it is marked for the remote store for the rest of the life of its entry |
| `BufferHistory.AskedIsPublished` | seamless/caching/buffer_cache.py:123-219 | over every run, if the buffer is known when someone asks, or is registered later in the life of the entry, it is published from then on, with exactly one more write unless it was published before |
| `BufferHistory.WrittenUnlessSilent` | seamless/caching/buffer_cache.py:430-447 | over every run, a marked entry whose buffer becomes known was written if and only if the call that made it known is not one of those that never write |
| `BufferHistory.DeferredWriteIsLost` | seamless/caching/buffer_cache.py:439-447 | a concrete deferred write that is lost: a transfer write without a buffer, followed by a tempref with it |
| `BufferHistory.PinnedStays` | seamless/caching/buffer_cache.py:158-172 | over every run, once an entry with a buffer is pinned, the buffer can be had in every later state until the last reference on it is given up |
| `RefHolders.Cell.constructor` | seamless/cell_class.py:506-552 | a new Cell claims its input checksum for keeps: it is not scratch, and it is marked for the remote store and published if its buffer is known |
| `RefHolders.Cell.SetResultChecksum` | seamless/cell_class.py:313-322 | the new result is claimed before the old one is given up, so nothing is unpinned but a result nobody claims any more; the claim is made under the policy of the Cell: a scratch result is listed as scratch, any other is marked and, if its buffer is known, published with one more write unless it was before |
| `RefHolders.Cell.ReplaceResult` | seamless/cell_class.py:313-322 | counts move exactly as the claims of the Cell, if and only if it was not released or the exchange is harmless; the new result is claimed under the policy of the Cell |
| `RefHolders.Cell.ReplaceInputRef` | seamless/cell_class.py:98-112 | counts move exactly as the claims (new input in, result and old input out), if and only if the Cell was not released or the exchange is harmless |
| `RefHolders.Cell.SetScratch` | seamless/cell_class.py:637-643 | the result is re-acquired under the new policy, so that it is listed as scratch or else marked and published; counts end as they were, also after a release, and before one nothing is unpinned meanwhile |
| `RefHolders.Cell.ReleaseRefholds` | seamless/cell_class.py:338-348 | all claims are given up, once |
| `RefHolders.Cell.Copy` | seamless/cell_class.py:748-771 | the duplicate makes its own claims, or none if the original was released |
| `Ledger.ExchangeIsHarmless` | seamless/caching/buffer_cache.py:317-336 | without live claims of its own, a holder that acquires and releases leaves all counts alone if and only if releases outweigh acquisitions only where nothing is counted |
| `RefHolders.InputAfterReleaseUnbalances` | seamless/cell_class.py:98-112 | concrete imbalances: a released Cell that gets another input, and one that loses its input |
| `RefHolders.HoldIsBalanced` | seamless/expression_class.py:453-475 | holding a result keeps the accounting balanced if and only if it is not the branch for an unchanged result after a release |
| `RefHolders.HoldAfterReleaseLeaks` | seamless/expression_class.py:459-464 | a concrete state in which a released Expression makes a claim that is never given up |
| `RefHolders.Expression.HoldResult` | seamless/expression_class.py:453-475 | the result is held as specified, or nothing changes if its tempref fails; outside the leaking branch counts move exactly as the claims |
| `RefHolders.Expression.EnableResultHolding` | seamless/expression_class.py:444-451 | an unheld result becomes a neutral claim, unless released |
| `RefHolders.Expression.ReleaseRefholds` | seamless/expression_class.py:487-496 | the claim on the result is given up, once |
| `RefHolders.Expression.Copy` | seamless/expression_class.py:168-191 | the duplicate holds what the original holds, with a claim of its own; there is none if its tempref fails |
| `RefHolders.CollectClaims` | seamless/reference_lifecycle.py:76-106 | for each checksum the number of live claims |
| `RefHolders.AuditReferenceAccounting` | seamless/reference_lifecycle.py:116-179 | the findings are exactly: counts above or below the number of live claims, with both numbers; bridges that are set while the count is zero or missing while it is not; manual references, where asked and not warned about before; so it is silent exactly when all agrees, and the set of warnings grows by exactly the manual ones |
| `RefHolders.AgreesUnlessReported` | seamless/reference_lifecycle.py:136-179 | accounting and claims agree on all checksums exactly if there is nothing to report |
| `RefHolders.BalancedPassesAudit` | seamless/reference_lifecycle.py:136-169 | in a valid cache with balanced counts the audit finds no refholder imbalance |
| `Ledger.HolderStep` | seamless/reference_lifecycle.py:136-160 | a holder whose own change is balanced keeps the whole accounting balanced |
| `Ledger.NewHolder` | seamless/reference_lifecycle.py:76-106 | so does a new holder |
| `Ledger.NewHolderAmong` | seamless/reference_lifecycle.py:26-34 | and a new holder, wherever it comes among the others |
| `ReferenceSystem.ReferenceSystem.Accounted` | seamless/reference_lifecycle.py:136-169 | in every state that operations of Cells, Expressions, evaluations and the cache lead to, the count of every checksum is the number of live claims on it, and its bridge is set exactly while that is positive |
| `ReferenceSystem.ReferenceSystem.Audit` | seamless/reference_lifecycle.py:116-179 | in every such state the audit over the live holders reports nothing but manual references |
| `ReferenceSystem.ReferenceSystem.ClaimIsProtected` | seamless/caching/buffer_cache.py:233-236 | in every such state whatever a holder claims has an entry that eviction does not touch |
| `ReferenceSystem.ReferenceSystem.AwaitedInputIsProtected` | seamless/checksum/expression.py:58-84 | and so has every input of a pending evaluation that someone waits for |
| `ReferenceSystem.ReferenceSystem.NothingLeaks` | seamless/reference_lifecycle.py:136-160 | once all holders and evaluations have given up their claims, the cache counts none |
| `ReferenceSystem.ReferenceSystem.NewCell` | seamless/cell_class.py:506-552 | a new Cell keeps the accounting; its claim is the only new one |
| `ReferenceSystem.ReferenceSystem.ReplaceResult` | seamless/cell_class.py:313-322 | so does another result; no other holder's claims change |
| `ReferenceSystem.ReferenceSystem.ReplaceInputRef` | seamless/cell_class.py:98-112 | so does another input |
| `ReferenceSystem.ReferenceSystem.SetScratch` | seamless/cell_class.py:637-643 | so does another scratch policy, which changes no claims at all |
| `ReferenceSystem.ReferenceSystem.NewExpression` | seamless/expression_class.py:92-166 | so does a new Expression, which makes no claim |
| `ReferenceSystem.ReferenceSystem.EnableResultHolding` | seamless/expression_class.py:444-451 | so does a request to hold results |
| `ReferenceSystem.ReferenceSystem.HoldResult` | seamless/expression_class.py:453-475 | so does a result, outside the leaking branch |
| `ReferenceSystem.ReferenceSystem.CopyCell` | seamless/cell_class.py:748-771 | so does a duplicate of a Cell, with the same claims again |
| `ReferenceSystem.ReferenceSystem.CopyExpression` | seamless/expression_class.py:168-191 | so does a duplicate of an Expression |
| `ReferenceSystem.ReferenceSystem.Release` | seamless/reference_lifecycle.py:46-68 | so does a release, which ends exactly the claims of one holder |
| `ReferenceSystem.ReferenceSystem.Evaluate` | seamless/checksum/expression.py:187-233 | so does every step of the evaluation protocol |
| `ReferenceSystem.ReferenceSystem.Use` | seamless/caching/buffer_cache.py:123-608 | so does any other call of the cache, eviction included, and it changes no refholder count |
| `Ledger.ExchangeMoves` | seamless/caching/buffer_cache.py:286-336 | acquiring some claims and releasing others changes each count by exactly the difference |
| `BufferSource.BufferSourceRegistry.Enter` | seamless/caching/buffer_source.py:195-226 | a caller shares the pending lookup of its key or starts one, and is counted |
| `BufferSource.BufferSourceRegistry.Leave` | seamless/caching/buffer_source.py:228-239 | the last caller to leave a pending lookup takes it off the table and cancels it if it is unfinished; otherwise the count of the pending lookup goes down by one, and nothing else changes |
| `BufferSource.BufferSourceRegistry.Announce` | seamless/caching/buffer_source.py:213-219 | a finished lookup removes its own entry, never that of a newer one |
| `BufferSource.WaitersAreServed` | seamless/caching/buffer_source.py:195-239 | whoever awaits a lookup awaits one that is not cancelled and that is pending or finished |
| `BufferSource.OneLookupPerKey` | seamless/caching/buffer_source.py:198-201 | two callers of one key with unfinished lookups await the same one |
| `ConversionRules.EveryPairHasOneRule` | seamless/checksum/conversion.py:278-321 | each ordered pair of different celltypes is in exactly one category of the rule table |
| `ConversionRules.RulesAreWellFounded` | seamless/checksum/conversion.py:278-321 | following equivalences and chains ends |
| `Convert.ConversionIsSound` | seamless/checksum/convert.py:68-219 | through any chaining: no new buffer means an unchanged checksum, a new buffer has the returned checksum, the source is fetched at most once, and neither internal assertion fires |
| `Convert.LegsAreSound` | seamless/checksum/convert.py:181-201 | two consistent legs make a consistent chain; the buffer of a new checksum is not lost |
| `Convert.NeedsBufferIsExact` | seamless/checksum/convert.py:136-163 | `conversion_needs_buffer` is true if and only if the conversion will fetch its source, whatever the fetch then gives |
| `Convert.NeedsBufferByRule` | seamless/checksum/convert.py:222-488 | which rules need the source: trivial ones and checksum cells never; bytes to binary and mixed to bytes always; the others unless the checksum or a cached type settles the value |
| `ConversionMeaning.OrdinaryIsRight` | seamless/checksum/convert.py:166-219 | in a world whose parsers and serializers fit together, every conversion of a valid buffer, through equivalences and chains, whatever is cached or known from the checksum, yields exactly the one buffer that the conversion stands for, under its own checksum, and fails exactly if there is none |
| `ConversionMeaning.ResultIsReadable` | seamless/checksum/conversion.py:8-24 | what a valid buffer is converted to is valid as the target, unless it is code that was never parsed |
| `ConversionResults.ConversionYields` | seamless/checksum/convert.py:68-130 | the same of `convert_checksum`: it succeeds exactly if the conversion stands for a buffer, and yields that buffer |
| `ConversionResults.SubclassIsKept` | seamless/checksum/conversion.py:42-65 | a superclass keeps the buffer, but for strings that become text and byte arrays that become bytes |
| `ConversionResults.SuperclassIsRead` | seamless/checksum/conversion.py:67-80 | a subclass keeps the buffer exactly if it can be read as such, and fails otherwise |
| `ConversionResults.BytesAreRead` | seamless/checksum/conversion.py:188-194 | bytes become a scalar or code exactly if they read as a document or a text first; the buffer is kept |
| `ConversionResults.DocumentIsYaml` | seamless/checksum/conversion.py:206-208 | documents and numbers become YAML as they are |
| `ConversionResults.PythonIsIPython` | seamless/checksum/conversion.py:48-48 | Python becomes IPython as it is |
| `ConversionResults.TextBecomesString` | seamless/checksum/conversion.py:138-149 | texts and code become strings, mixed values and documents as a string of the same characters, also if they are JSON |
| `ConversionResults.StringBecomesText` | seamless/checksum/conversion.py:151-154 | a string becomes a text, or code, of the same characters |
| `ConversionResults.DocumentBecomesText` | seamless/checksum/convert.py:278-282 | a JSON string becomes the text that it holds; any other document is kept as it is |
| `ConversionResults.TextBecomesDocument` | seamless/checksum/convert.py:396-416 | a text becomes the canonical document of the JSON in it, or else of itself as a string |
| `ConversionResults.DocumentTextDocument` | seamless/checksum/conversion.py:19-22 | plain to text to plain gives the canonical document of the value, unless that is a string whose text is another JSON document, which then replaces it |
| `ConversionResults.BytesBecomeBinary` | seamless/checksum/convert.py:299-320 | a readable npy buffer is kept; any other bytes become a byte array |
| `ConversionResults.BytesBecomeMixed` | seamless/checksum/convert.py:323-364 | what reads as mixed is kept; other texts become strings and other bytes byte arrays |
| `ConversionResults.StorageBecomesBytes` | seamless/checksum/convert.py:367-393 | a byte array becomes its raw bytes; every other value keeps its buffer |
| `ConversionResults.ValueIsCast` | seamless/checksum/convert.py:419-488 | value rules, YAML to plain and IPython to Python yield the buffer of the changed value, which reads as that value, and fail exactly if there is none |
| `ConversionResults.ScalarBecomesArray` | seamless/checksum/conversion.py:163-166 | a scalar becomes the array of its plain value |
| `ConversionResults.ConvertsThrough` | seamless/checksum/conversion.py:179-209 | stored values reach text as documents and code as texts, texts and YAML reach numbers as documents, an array reaches a string by its bytes, and a text becomes an array only as a mixed value |
| `ConversionResults.UnrelatedFails` | seamless/checksum/conversion.py:255-275 | between code and YAML, and code and numbers, nothing is ever converted |
| `ConversionResults.EveryPairIsStated` | seamless/checksum/conversion.py:278-321 | these statements cover every pair of different celltypes but those with checksums |
| `ConversionResults.GuaranteedSucceeds` | seamless/checksum/conversion.py:44-117 | if serializers accept what they are given, what the table calls guaranteed succeeds for every valid source, with the exception of YAML to plain |
| `ConversionResults.ChecksumRefersBack` | seamless/checksum/convert.py:447-453 | a checksum cell of any buffer refers back to that buffer, whatever it is then converted to |
| `ConversionResults.DeepConversions` | seamless/checksum/convert.py:97-127 | deep celltypes convert only among each other and to plain, by keeping their index; an empty folder becomes an empty mixed value; null is kept where a conversion exists |
| `ConversionWitness.AcceptingWorldExists` | seamless/checksum/convert.py:68-130 | the assumptions about parsers and serializers can all be met |
| `ConversionWitness.CodeIsNotParsed` | seamless/checksum/conversion.py:151-154 | concrete strings and documents that become code or YAML that cannot be read as such |
| `Convert.LazyBuffer.Call` | seamless/checksum/convert.py:51-65 | the callback is called on first use only, and its buffer is kept |
| `HashTypes.FromBuffer` | seamless/checksum/hash_type.py:413-449 | classification yields a well-formed concrete word |
| `HashTypes.LooserRefusesLess` | seamless/checksum/hash_type.py:335-349 | looser knowledge refuses no reading that tighter knowledge admits |
| `Predictions.ReadingIsForeseen` | seamless/checksum/hash_type.py:452-520 | on a concrete word `deserializable_as` disproves exactly what cannot be read by what the buffer holds, and proves exactly what surely can |
| `Predictions.FeasibleIsExact` | seamless/checksum/hash_type_validation.py:232-317 | on a concrete word `conversion_feasible` refuses exactly what is unrelated, invalid as its source, unreadable on the way, or unconvertible by the shape of the value, and confirms exactly what is guaranteed, surely reads, or is convertible by that shape; through equivalences and chains |
| `Predictions.NumbersAreRefusedExactly` | seamless/checksum/hash_type_validation.py:374-389 | mixed and binary buffers are refused as numbers exactly if they are invalid or hold arrays with a dimension, dictionaries, lists or null, and confirmed exactly if they hold numeric arrays without dimension, JSON numbers or numeric text |
| `Predictions.UntestedRefusesExactly` | seamless/checksum/hash_type_validation.py:232-317 | an untested word refuses exactly what is to be refused of every buffer that it describes |
| `Predictions.LooserIsConfirmed` | seamless/checksum/hash_type_validation.py:232-317 | what a looser word confirms is confirmed by what the buffer holds |
| `Predictions.FeasibleComesTrue` | seamless/checksum/hash_type_validation.py:232-317 | where readers and serializers accept what they admit, what is confirmed succeeds on every buffer that the word describes, except mixed to string of containers and of arrays with a dimension, which always fails |
| `Predictions.DictionaryIsNoString` | seamless/checksum/hash_type_validation.py:390-393 | a concrete word for which a confirmed conversion fails |
| `Predictions.NullIsForeseen` | seamless/checksum/hash_type_validation.py:252-253 | for the null value everything is confirmed but conversions that do not exist |
| `Predictions.NullIsNoNumber` | seamless/checksum/convert.py:425-438 | yet null as mixed or binary never becomes a number |
| `Refusals.NoFalseRefusal` | seamless/checksum/hash_type_validation.py:232-317 | if a word that describes a buffer, concrete or untested, makes a conversion infeasible, that conversion fails on the buffer even without HashType gates, through equivalences and chains |
| `Refusals.ReadFails` | seamless/checksum/hash_type.py:452-520 | a disproved reinterpretation fails when it is read |
| `Refusals.RebuildFails` | seamless/checksum/hash_type_validation.py:369-410 | a value conversion declared infeasible fails when it is made |
| `Refusals.EquivalentIsNotRefused` | seamless/checksum/conversion.py:134-176 | conversions that go by an equivalence are never refused for a valid source |
| `CellJoin.Build` | seamless/checksum/celljoin.py:33-83 | building succeeds exactly for keys of one kind that are usable, and yields a definition of these members, whatever their order |
| `CellJoin.Parse` | seamless/checksum/celljoin.py:137-181 | parsing succeeds exactly on readable definitions and returns what they say |
| `CellJoin.BuildThenParse` | seamless/checksum/celljoin.py:33-181 | parsing what was built recovers root, kind of keys and all members; it fails exactly for integer keys with a deep celltype |
| `CellJoin.TextIsInjective` | seamless/checksum/celljoin.py:56-60 | integer keys of any size stay distinct as decimal text |
| `CellJoin.CanonicalRoundTrip` | seamless/checksum/celljoin.py:19-19 | a canonical key is the decimal text of the number it reads as |
| `CellJoin.Evaluate` | seamless/checksum/celljoin.py:220-251 | evaluation is the simultaneous update of all members, or an exception |
| `CellJoin.OrderIsIrrelevant` | seamless/checksum/celljoin.py:235-251 | the order of the members plays no role |

## Left out

- Locks and threads: every section under a lock is one step; the module-level singletons and their wrappers are not modelled.
- Floating point: costs, scores and interests are reals with infinity; NaN and rounding are not modelled.
- `DownloadCostSubsystem.clear`, `notify_upload` and the conversion subsystem, whose cost is always zero.
- Eviction logging, the background eviction task, `refresh_tempref`, `stats` and the forced cleanup at shutdown.
- BufferCache.BufferCache.RunEvictionOnce: takes the answers of the cost engine as a function of the checksum; `CostedEviction.RunEvictionOnce` has them from `EvictionCost`, which it tells of dropped entries at the end of each phase instead of one by one, no cost being asked for in between. `hard_cap` plays no role in the code either.
- Strong entries are values in a map, since nothing else holds a reference to them; sharing of entry objects is not modelled.
- Buffer contents: a buffer in the cache is its checksum and its length. The buffer writer is a ghost log of what it is handed.
- Tempref decay over wall-clock time: each call is given the current interest of every tempref as a function.
- pylru: the callback is an object with the store and the dirty set of a write-back manager; `WriteThroughCacheManager`, `FunctionCacheManager`, the decorators, `update` and iteration (`keys`, `values`, `items`) are left out, and so is the `empty` flag of nodes that have left the circle.
- Mixed data: what `get_form` refuses with a type error (object, datetime and void dtypes, records that are not aligned or not native, subarrays of strings or records, NumPy booleans outside arrays); records with offsets of their own that are still aligned; non-contiguous arrays, whose forms also record strides; tuples, which are lists here and come back as lists; Python `complex`, which cannot be written inside a container, and Python `bytes`, which are zero-dimensional arrays of byte strings here; non-string keys; insertion order of dictionaries (they are maps); storage or form arguments given by the caller of `serialize`. A length that does not fit its field is a failure.
- MixedFile.RoundTrip: values are trees. One container with a binary leaf that occurs at two places is not covered: the writer copies it once and zeroes the leaf twice, which raises an exception.
- MixedFile.RestoredIffPreserved: a NumPy scalar that comes back in place of an array without dimensions is a leaf without a shape here, whereas one that is written is an atom. NumPy's extended-precision numbers are given by what `float` makes of them.
- MixedFile.Deserialize: of buffers that `serialize` did not write it only says that reading stays in bounds; a header that names another storage than mixed-plain is a failure.
- PathSyntax.PrintThenParse: covers integer and ASCII string keys, and slices with integer or missing parts; other literals, characters outside ASCII, and the interpreter's limit on the digits of an integer are left out.
- PathSyntax.JoinApplies: steps of a path are applied by an abstract function; fusion of whole Expressions with conversions in between is not claimed.
- SharedEvaluation.EveryRunIsSafe: tasks are cancelled by their linger timer only, not by a closing event loop.
- Shared evaluation: the result values, waiter futures of the event loops, the expression cache, placement, remote dispatch and the scratch flags of a dispatch.
- ReferenceSystem.ReferenceSystem.Audit: is given the evaluations that the weak registry lists; garbage collection of holders is a release that happens at any time.
- Cells bound to a workflow backend, recipes, and the computation of results; the lease on an input that `_input_refheld` would hold, which is never set.
- Sources of buffers: what a lookup finds, registration of sources and the synchronous and metadata queries.
- Conversions: parsing, serializing, hashing and HashType knowledge are abstract functions in `Convert`; error messages are not modelled.
- ConversionMeaning.OrdinaryIsRight: the parsers and serializers fit together as `ConversionMeaning.Fitting` says, which is what their code promises and not proved of it; a value is read back up to `normal`, which strips trailing newlines of a text and turns the text `null` into the null value. Bytes that are the null value count as their characters when they become a byte array.
- ConversionMeaning.ResultIsReadable: a source checksum that is dereferenced is covered by `ConversionResults.ChecksumRefersBack` only.
- HashTypes.FromBuffer: takes what a buffer contains (a NumPy file, mixed data, JSON, text or other bytes) as given; telling these apart by magic bytes, decoding and parsing is not modelled.
- HashTypes: the packed integer encoding, path capabilities, and the cache of words with its tightening.
- Refusals.NoFalseRefusal: a source counts as valid if its concrete type admits the source celltype, because the ungated reader of mixed data also accepts arbitrary text as a byte string.
- CellJoin.TextIsInjective: speaks of decimal text; the interpreter's limit on the digits of an integer that is converted to text or back is left out.
- Celljoins: JSON text itself (definitions are maps of strings to checksums or null), members that are not checksums, fetching, publication and the shared evaluation of joins; a deep join stores the checksums of its members where others store values.
- Remote servers, the database, mounts, shares, HTTP and process shutdown.
