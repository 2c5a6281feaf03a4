# Verified models of cuVS's bookkeeping code

cuVS is a library of GPU algorithms for vector search. Around its kernels it has host code that manages
memory, handles and generated sources. These Dafny files model that code and prove what it promises. Every
entry point that changes state is a method over the fields that the source changes, proved against a
specification; what the source promises is then proved of the specification for all inputs, runs or
reachable states.

- **Memory-pool registry** (`Pool*.dfy`). Handles on any number of threads install memory pools on devices;
  each pool allocates from the one below it. A handle that releases its pool only marks it, and the inactive
  end of the list is popped. `PoolModel` has the critical sections as steps and, as the reference, a log of
  who installed what in which order; `PoolProofs` proves that every interleaving refines the reference, and
  `PoolHistory` explains states and runs by the events alone; `PoolRegistry` has the classes of the source,
  whose methods take exactly these steps.
- **Matrix products** (`Matrix*.dfy`). A nested document is expanded into a list of entries by a traversal
  that threads a queue of pending parts through its recursion. `MatrixModel` gives the meaning of a document
  by recursion over the document alone, `MatrixTraversal` proves that the traversal computes it, with order,
  overriding, exceptions and warnings, and `MatrixResults`, `MatrixWarnings` and `MatrixFlat` prove what the
  documentation says about it.
- **Placeholders** (`Placeholder*.dfy`). CMake placeholders are replaced by fresh tokens before formatting
  and put back afterwards by plain string replacement. The file does not always come back:
  `PlaceholderMatches` says what is found and replaced, character by character;
  `PlaceholderRoundTrip` states exactly when the file comes back, a simple condition on the literals that is enough,
  and a file that is damaged.
- **CAGRA handles** (`Cagra*.dfy`). The C interface stores C++ indices of many types behind untyped addresses
  with a layout tag, and selects the type to cast to from the tag and a dtype. `CagraModel` is the reference,
  which has neither addresses nor tags; `CagraHandles` has the entry points over a heap of boxes,
  where every cast and every free has the precondition that makes it safe, and proves that every run refines
  the reference; `CagraRuns` proves that every run keeps the handles well typed and apart from each other;
  `CagraMeaning` says of each call when exactly it succeeds and what the handles are good for afterwards.
- **Host merge** (`MergeRows.dfy`). The strided copy of all input rows into one buffer when the device has
  no memory left.
- **API reference generator** (`ApiScopes.dfy`, `ApiSplit.dfy`). The scopes that are open at a position of
  a C++ header, and the splitting of a text at separators outside brackets.
- **clang-tidy runner** (`TidyArguments.dfy`). The in-place deletion of compiler options.
- **Go bindings** (`GoRowWidth.dfy`, `GoBitset.dfy`, `GoTensor.dfy`). Row width arithmetic, the allow-list
  bit set, and the buffers of a tensor.
- **ABI check** (`AbiCheck.dfy`). Which symbols of a C interface a new version breaks.

Three places differ from what their documentation says, and the models follow the code:

- `compute_matrix_product.py` suggests that a document that follows the underscore convention causes no warning.
  For a document that raises nothing this holds exactly when nothing without entries, such as an empty list,
  stands behind a visited key that names a leaf (`MatrixWarnings.QuietExactlyWhenConventional`, with the
  documents of `EmptyListCausesWarning` and `EmptyListMayBeQuiet`).
- It also says that a leaf without a key causes a `NoKeyError`. A key that is no identifier may cause an
  `AssertionError` first (`MatrixResults.NoKeyErrorExactly`, `AnotherErrorComesFirst`).
- The struct check of `abi.py` says that it finds renamed and reordered members. It compares types only
  (`AbiCheck.RenamingIsNotSeen`).

## Model

| member | source | states |
|---|---|---|
| PoolProofs.EveryRunRefines | c/src/core/c_api.cpp:77-124 | in every interleaving of creations, releases, installs (also ones that throw) and destructions, each device's current resource is the pool of the most recently installed handle that still holds one, or the original resource |
| PoolProofs.EveryRunKeepsUpstreamsAlive | c/src/core/c_api.cpp:84-123 | in every reachable state no pool of a listed entry, and nothing in its upstream chain, has been destroyed, and the upstream of each pool is the resource that its entry will put back |
| PoolProofs.EveryRunKeepsOwnership | c/src/core/c_api.cpp:100-113 | in every reachable state a handle that holds a pool names its own active entry on its device, and no other handle names the same entry |
| PoolProofs.QuietRunRestores | c/src/core/c_api.cpp:115-123 | in whatever order the handles release, once none holds a pool every device has its original resource, the registry is empty and every pool ever made is destroyed |
| PoolHistory.CurrentByHistory | c/src/core/c_api.cpp:77-124 | after every run a device's current resource was made by the last successful installation on it whose handle has neither released it nor been destroyed since, as a new pool on what was current just before that event; without such an installation it is the original resource |
| PoolHistory.HoldingExactly | c/src/core/c_api.cpp:100-113 | after every run a handle holds a pool exactly when an installation by it was not followed by its release or destruction |
| PoolHistory.HandlesExist | c/src/core/c_api.cpp:75-138 | the handles of a state are exactly those that were created and not destroyed since |
| PoolHistory.NextExactly | c/src/core/c_api.cpp:75-138 | which event can come next in a run: a handle is created when it does not exist, released and destroyed when it does, and may install on any device, with a list element of its own, exactly when it holds no pool |
| PoolHistory.FirstPool | c/src/core/c_api.cpp:84-101 | creating a handle and installing is a run, and leaves pool 0 on the original resource, listed and held by the handle |
| PoolHistory.History | c/src/core/c_api.cpp:77-124 | the reference log of a device lists the live installations of the history of events, in their order |
| PoolProofs.StepPreserves | c/src/core/c_api.cpp:75-124 | one critical section of any handle keeps the registry in agreement with the reference model, which only knows who installed what in which order |
| PoolProofs.CurrentIsMostRecent | c/src/core/c_api.cpp:86-94 | a list of installations that agrees with the reference log has the log's most recent live pool on top |
| PoolProofs.ReleasePreserves | c/src/core/c_api.cpp:105-124 | marking an entry anywhere in the list inactive and popping the inactive end removes exactly this handle's pool from the reference log |
| PoolProofs.UnwindCorrect | c/src/core/c_api.cpp:117-121 | popping destroys only pools that no remaining entry uses, keeps all active entries with their pools, and ends at an active entry or an empty list |
| PoolProofs.InstallPreserves | c/src/core/c_api.cpp:84-101 | a completed install appends exactly one live pool whose upstream is the previous current resource |
| PoolProofs.FailedInstallPreserves | c/src/core/c_api.cpp:95-99 | an install that throws while the pool is set loses only the identity of the destroyed pool |
| PoolProofs.HoldingHasEntry | c/src/core/c_api.cpp:112-113 | the list and the entry that a release looks up exist |
| PoolRegistry.Registry.constructor | c/src/core/c_api.cpp:54-63 | an empty registry over the original resources is the initial state |
| PoolRegistry.Registry.CreateHandle | c/src/core/c_api.cpp:132-138 | a new handle holds no pool, is among the handles, and nothing else changes |
| PoolRegistry.Registry.Reset | c/src/core/c_api.cpp:105-124 | the method takes exactly the release step of the state machine; for a handle without a pool it does nothing |
| PoolRegistry.Registry.ReleaseInstallation | c/src/core/c_api.cpp:109-123 | the objects in memory become those of the state after the release |
| PoolRegistry.Registry.MarkInactive | c/src/core/c_api.cpp:113 | exactly the handle's own entry becomes inactive |
| PoolRegistry.Registry.PopInactive | c/src/core/c_api.cpp:117-122 | the loop pops all inactive entries at the end, puts their previous resources back one by one, and removes an empty list from the map |
| PoolRegistry.Registry.InstallPool | c/src/core/c_api.cpp:84-101 | the second critical section takes the install step, or rolls back to the state before it when making or setting the pool throws |
| PoolRegistry.Registry.TryInstall | c/src/core/c_api.cpp:87-101 | lists, current resource and handle after success, and both throwing paths, where all of them are as before |
| PoolRegistry.Registry.Append | c/src/core/c_api.cpp:90-91 | one active entry is appended to the device's list, which is made if there is none |
| PoolRegistry.Registry.Erase | c/src/core/c_api.cpp:95-99 | the catch block gives back the map as it was before the entry was appended |
| PoolRegistry.Registry.Emplace | c/src/core/c_api.cpp:93-94 | the new entry remembers the resource that it replaces |
| PoolRegistry.Registry.RecordInstallation | c/src/core/c_api.cpp:93-101 | the previous resource, the current resource and the handle's position are the ones of the install step |
| PoolRegistry.Registry.SetMemoryPool | c/src/core/c_api.cpp:77-102 | a refused call changes nothing; one that throws leaves the state after the handle's own reset; a successful one is a reset followed by an install |
| PoolRegistry.Registry.DestroyHandle | c/src/core/c_api.cpp:75 | destruction is a release followed by the removal of the handle, which is gone; no other handle is |
| MatrixTraversal.IterateMatrixProduct | cpp/cmake/modules/compute_matrix_product.py:210-212 | the entries, in order, the exception and the warnings of the queue traversal are exactly those of the meaning of the document, for every document |
| MatrixTraversal.IterateNextDimension | cpp/cmake/modules/compute_matrix_product.py:127-171 | a queue of pending parts yields the product of their meanings under the entry bound so far, with all flags and warnings; it terminates because the documents in the queue shrink |
| MatrixTraversal.IterateImpl | cpp/cmake/modules/compute_matrix_product.py:173-208 | a dictionary, list or leaf combined with the rest of the queue yields the product of its meaning with the queue's |
| MatrixTraversal.IterateAlternatives | cpp/cmake/modules/compute_matrix_product.py:194-199 | the alternatives of a list are concatenated although each replays the whole queue, up to the first exception |
| MatrixTraversal.AnyUsed | cpp/cmake/modules/compute_matrix_product.py:136-140 | the used flag of a visit is set exactly when some yielded flag is |
| MatrixTraversal.QueueCat | cpp/cmake/modules/compute_matrix_product.py:181-193 | putting a dictionary's fields in front of the queue is the product of the dictionary with the queue |
| MatrixTraversal.LeafStep | cpp/cmake/modules/compute_matrix_product.py:201-208 | binding a leaf in the entry and going on is the product of the leaf's one alternative with the rest |
| MatrixTraversal.DictStep | cpp/cmake/modules/compute_matrix_product.py:180-193 | visiting the sorted fields and dropping their flags is the meaning of the dictionary |
| MatrixTraversal.ListStep | cpp/cmake/modules/compute_matrix_product.py:194-199 | one more alternative adds exactly what it yields with the rest of the queue |
| MatrixTraversal.VisitUses | cpp/cmake/modules/compute_matrix_product.py:136-140 | a visit reports its key as used exactly when the key directly names a leaf in some entry that the visit yields, also when a later empty list removes all entries |
| MatrixTraversal.FieldItemsSize | cpp/cmake/modules/compute_matrix_product.py:181-193 | queueing the fields of a dictionary does not add to the measure with which the traversal terminates |
| MatrixAlgebra.ProdIsLexicographic | cpp/cmake/modules/compute_matrix_product.py:47-82 | alternative number i times m plus j of a product joins the i-th of the first factor and the j-th of the second: it binds the keys of both, and the second one's value where both have a key |
| MatrixAlgebra.ProdAssociative | cpp/cmake/modules/compute_matrix_product.py:173-193 | the grouping of factors does not matter, also when some of them raise |
| MatrixAlgebra.ProdCat | cpp/cmake/modules/compute_matrix_product.py:194-199 | a list multiplies out alternative by alternative, also when some of them raise |
| MatrixResults.SortedIncreasing | cpp/cmake/modules/compute_matrix_product.py:187 | the fields of a dictionary are visited in Python's order of their keys, each as often as it is there: of two keys the earlier one ends first, or has the smaller character where they first differ |
| MatrixResults.LessExactly | cpp/cmake/modules/compute_matrix_product.py:187 | the comparison of keys, in terms of their characters |
| MatrixFlat.FlatProduct | cpp/cmake/modules/compute_matrix_product.py:47-82 | a dictionary of lists of values yields one entry for every choice of one value from each list, which binds exactly the chosen values under their keys |
| MatrixFlat.ChoicesInOrder | cpp/cmake/modules/compute_matrix_product.py:181-199 | these entries come in the lexicographic order of the choices, the last key varying fastest |
| MatrixFlat.BoundToNearestKey | cpp/cmake/modules/compute_matrix_product.py:83-92 | for every document: an entry binds only values of leaves, each to the nearest key above its leaf, so a key that is used for grouping does not appear |
| MatrixResults.InsertionOrderIsIrrelevant | cpp/cmake/modules/compute_matrix_product.py:180-193 | documents that differ in the insertion order of fields, at any depth, have the same product, exception and flags |
| MatrixResults.WarningsForgetInsertionOrder | cpp/cmake/modules/compute_matrix_product.py:127-193 | and the same warnings in the same order, whatever is queued behind them |
| MatrixResults.EntryCount | cpp/cmake/modules/compute_matrix_product.py:47-85 | when nothing is raised there is one entry for a leaf, the sum for a list and the product for a dictionary |
| MatrixResults.NoKeyErrorExactly | cpp/cmake/modules/compute_matrix_product.py:147-149 | for every document: NoKeyError is raised exactly when some leaf has only lists above it and nothing before it raises; an AssertionError exactly when instead a key that is checked fails; otherwise nothing |
| MatrixResults.NoKeyErrorWithCleanKeys | cpp/cmake/modules/compute_matrix_product.py:94-96 | for documents in which every key passes the check, NoKeyError is raised exactly when some leaf has no key above it, as documented |
| MatrixResults.AnotherErrorComesFirst | cpp/cmake/modules/compute_matrix_product.py:94-96 | a document with a leaf without a key that raises an AssertionError |
| MatrixResults.BareMeansNamesLeaf | cpp/cmake/modules/compute_matrix_product.py:194-202 | where nothing else is raised, having a leaf under lists only decides about NoKeyError |
| MatrixResults.ErrorOfFields | cpp/cmake/modules/compute_matrix_product.py:144-149 | a dictionary raises exactly when a field that is visited raises or its key fails the check; fields behind one without alternatives are not visited |
| MatrixResults.EntriesBeforeNoKeyError | cpp/cmake/modules/compute_matrix_product.py:201-208 | for every document that raises no AssertionError: before NoKeyError exactly the entries of the document up to that leaf are yielded |
| MatrixWarnings.QuietExactly | cpp/cmake/modules/compute_matrix_product.py:136-171 | for every document that raises nothing: there is no warning exactly when each visited key is without underscore if and only if it names a leaf and what comes behind it has an entry |
| MatrixWarnings.QuietExactlyWhenConventional | cpp/cmake/modules/compute_matrix_product.py:82-92 | a document that raises nothing and follows the convention causes no warning exactly when nothing without entries stands behind a visited key that names a leaf; without empty lists exactly the documents that follow the convention cause none |
| MatrixWarnings.MatrixQuietExactly | cpp/cmake/modules/compute_matrix_product.py:173-208 | the same for a part of a document in front of any queue, for which it matters only whether the queue has an entry |
| MatrixWarnings.DeadEitherWay | cpp/cmake/modules/compute_matrix_product.py:136-140 | for a part without entries it makes no difference to its warnings what is queued behind it |
| MatrixWarnings.EmptyListCausesWarning | cpp/cmake/modules/compute_matrix_product.py:156-171 | a document that follows the convention and is warned about because of an empty list |
| MatrixWarnings.EmptyListMayBeQuiet | cpp/cmake/modules/compute_matrix_product.py:156-171 | a document with an empty list that follows the convention and causes no warning |
| MatrixWarnings.ReportExactly | cpp/cmake/modules/compute_matrix_product.py:142-171 | a used key is reported exactly when it begins with an underscore and warn_used is set, an unused one exactly when it does not and warn_unused is set, and an index never |
| MatrixWarnings.InnerAndLaterKeysFirst | cpp/cmake/modules/compute_matrix_product.py:136-171 | a key is reported after the keys inside it and after the keys behind it |
| MatrixWarnings.OneKeyIsReported | cpp/cmake/modules/compute_matrix_product.py:136-171 | the warnings of the traversal for a document with one key, for a key that is used and for one that is not, under all options |
| PlaceholderRoundTrip.RoundTrip | ci/checks/clang_format_with_cmake_placeholders.py:21-69 | with a formatter that changes nothing the file comes back if and only if no literal segment contains a token, where a segment is read with the `##` of a later token before it and of this or a later token behind it; and always when no literal has two adjacent underscores |
| PlaceholderRoundTrip.RoundTripExactly | ci/checks/clang_format_with_cmake_placeholders.py:66-69 | replacing token by token restores the text if and only if at each stage the token occurs only where its placeholder was |
| PlaceholderRoundTrip.StagesExactly | ci/checks/clang_format_with_cmake_placeholders.py:66-69 | all stages go right exactly when no literal segment contains a token |
| PlaceholderSegments.SegmentsExactly | ci/checks/clang_format_with_cmake_placeholders.py:66-69 | one stage goes right exactly when its token is in no literal segment: it cannot reach into a name that is back, nor farther than two characters into another token |
| PlaceholderRoundTrip.NoDoubleUnderscoreSuffices | ci/checks/clang_format_with_cmake_placeholders.py:34-47 | without two adjacent underscores in a literal no token arises across the end of another one |
| PlaceholderRoundTrip.SomethingIsLost | ci/checks/clang_format_with_cmake_placeholders.py:66-69 | a file that does not come back: the end of a token and the literal behind it make up another token |
| PlaceholderRoundTrip.Substitute | ci/checks/clang_format_with_cmake_placeholders.py:21-49 | the loop writes every placeholder as the token of its name and copies everything else; the reverse dictionary leads from the tokens back; the first `@name@` of the text becomes the first token behind what is before it, and a text without one stays as it is |
| PlaceholderRoundTrip.ReplacementFor | ci/checks/clang_format_with_cmake_placeholders.py:30-43 | a known name keeps its token and a new one gets the first free token after all earlier ones; both dictionaries stay inverse to each other |
| PlaceholderRoundTrip.NextFree | ci/checks/clang_format_with_cmake_placeholders.py:35-36 | the search finds the first counter whose token is not in the file, and ends for every file |
| PlaceholderRoundTrip.TokensAreFresh | ci/checks/clang_format_with_cmake_placeholders.py:34-43 | the tokens of different names are different and none occurs in the file |
| PlaceholderRoundTrip.TableOfIsTable | ci/checks/clang_format_with_cmake_placeholders.py:30-43 | the names of a file are distinct identifiers, and each number is the first free one behind the number of the name before |
| PlaceholderRoundTrip.OnlyOneTable | ci/checks/clang_format_with_cmake_placeholders.py:30-43 | names and numbers are determined by the file alone |
| PlaceholderRoundTrip.PutNamesBack | ci/checks/clang_format_with_cmake_placeholders.py:66-69 | the loop makes the replacements in insertion order |
| PlaceholderRoundTrip.ShowSymbols | ci/checks/clang_format_with_cmake_placeholders.py:27-29 | the literals and placeholders found by the regular expression, written one after the other, are the file |
| PlaceholderRoundTrip.NextMatch | ci/checks/clang_format_with_cmake_placeholders.py:27-29 | the next match is `@`, a letter or underscore, letters, digits or underscores, and `@`; no such text begins anywhere before it, and everything before it is literal |
| PlaceholderMatches.LeftmostMatch | ci/checks/clang_format_with_cmake_placeholders.py:27-29 | the matches are exactly the leftmost placeholders, each one searched for behind the one before; without a match no placeholder begins anywhere in the rest |
| PlaceholderMatches.MatchExactly | ci/checks/clang_format_with_cmake_placeholders.py:27-29 | a text begins with a placeholder of n characters exactly when n is the length that is matched, with the character ranges written out |
| PlaceholderMatches.FirstPlaceholder | ci/checks/clang_format_with_cmake_placeholders.py:27-29 | for every name of the pattern, any text before it without `@` and any text behind it, the first match is that name at its place |
| PlaceholderMatches.ContainsExactly | ci/checks/clang_format_with_cmake_placeholders.py:35-36 | the search for a token succeeds exactly when it begins at some position |
| PlaceholderMatches.TokenIsDecimal | ci/checks/clang_format_with_cmake_placeholders.py:34-39 | a token is its number in decimal digits without leading zeros between `##__` and `##` |
| PlaceholderMatches.ReplaceLeftmost | ci/checks/clang_format_with_cmake_placeholders.py:66-69 | a replacement keeps what is before the first occurrence and goes on behind it |
| PlaceholderMatches.ReplaceNothing | ci/checks/clang_format_with_cmake_placeholders.py:66-69 | without an occurrence nothing is replaced |
| PlaceholderRoundTrip.NumbersExactly | ci/checks/clang_format_with_cmake_placeholders.py:34-43 | the numbers in use are increasing, and up to the last one they are exactly those whose tokens are not in the file |
| PlaceholderProofs.ContainedIsSmall | ci/checks/clang_format_with_cmake_placeholders.py:35-36 | a text contains tokens of bounded numbers only |
| PlaceholderProofs.TokensArePrefixFree | ci/checks/clang_format_with_cmake_placeholders.py:37-39 | no token is the beginning of another |
| PlaceholderProofs.ReplaceIsPutBack | ci/checks/clang_format_with_cmake_placeholders.py:66-69 | `str.replace` never matches across a name that has been put back |
| PlaceholderProofs.StageExactly | ci/checks/clang_format_with_cmake_placeholders.py:66-69 | one replacement puts back exactly the places of its name if and only if the token occurs nowhere else, neither in a literal nor across the end of another token |
| PlaceholderProofs.UndoPutBack | ci/checks/clang_format_with_cmake_placeholders.py:66-69 | no replacement loses information: writing the names out again gives the text before it |
| PlaceholderProofs.MatchPosition | ci/checks/clang_format_with_cmake_placeholders.py:34-39 | within another token a token can begin only in the final `##` |
| PlaceholderProofs.SymbolsAreDetermined | ci/checks/clang_format_with_cmake_placeholders.py:44-49 | a text with names and the same text with tokens together determine where the placeholders were |
| CagraHandles.Run | c/src/neighbors/cagra.cpp:81-143 | every sequence of calls, with any outcome of every library call inside them, frees nothing twice, casts nothing to another type than the stored one, leaves no box without a handle, and does to the handles what the reference says; once all handles are destroyed the heap is empty |
| CagraHandles.Library.Perform | c/src/neighbors/cagra.cpp:1517-2245 | any single call keeps the invariant and has the effect and the status of the reference |
| CagraHandles.Library.Build | c/src/neighbors/cagra.cpp:1971-2010 | the old box is freed first, so a failed build leaves the handle empty with the new dtype; otherwise handles and status are those of the reference, whose builds CagraMeaning.BuildExactly describes; for dataset handles made by the interface the layout and dtype checks cannot fail |
| CagraHandles.Library.BuildDispatch | c/src/neighbors/cagra.cpp:1920-1969 | memory type and layout select the view that the dataset storage really has |
| CagraHandles.Library.BuildFromView | c/src/neighbors/cagra.cpp:1899-1914 | the handle is bound only after the library has built |
| CagraHandles.Library.FromArgs | c/src/neighbors/cagra.cpp:2012-2037 | the view depends on the row width; a failure leaves the handle empty, and so does the success for a tensor in neither memory |
| CagraHandles.Library.UpdateDataset | c/src/neighbors/cagra.cpp:1846-1893 | the index is rebound to the dataset's view exactly when all checks and the library succeed, and otherwise nothing changes |
| CagraHandles.Library.Extend | c/src/neighbors/cagra.cpp:2039-2066 | only a device-padded index is extended, in place, by a device-padded dataset of the same dtype |
| CagraHandles.Library.Search | c/src/neighbors/cagra.cpp:2068-2123 | only a device-padded or PQ index is searched, with queries of its dtype |
| CagraHandles.Library.Merge | c/src/neighbors/cagra.cpp:2185-2245 | the complete effect of a merge, including the output handle that is emptied before the layouts are checked and the host fallback |
| CagraHandles.Library.MergeTyped | c/src/neighbors/cagra.cpp:149-264 | success binds the merged index and fills the dataset handle with the same dtype, memory and layout; every failure leaves the output empty and the dataset handle alone |
| CagraHandles.Library.InputsLayout | c/src/neighbors/cagra.cpp:1313-1365 | the loops over the inputs find the common device layout, or an empty or different input, and cast every input to the common type |
| CagraHandles.Library.OthersBuilt | c/src/neighbors/cagra.cpp:2216-2221 | the loop over the other inputs accepts them exactly when all are built with the first one's dtype |
| CagraHandles.Library.DeserializeGraph | c/src/neighbors/cagra.cpp:2431-2447 | the new index replaces the old one only after everything was read; a failure changes nothing |
| CagraHandles.Library.DeserializeBoth | c/src/neighbors/cagra.cpp:2449-2474 | index and dataset handle change together or not at all, and agree in dtype, memory and layout |
| CagraHandles.Library.Swap | c/src/neighbors/cagra.cpp:1260-1281 | binding the new box before freeing the old one loses neither |
| CagraHandles.Library.WithIndexByLayout | c/src/neighbors/cagra.cpp:81-143 | the tag selects the type of the cast, which is the type that the box holds; host and BBQ layouts are refused where they are not allowed |
| CagraHandles.Library.Bind | c/src/neighbors/cagra.cpp:345-366 | the handle leads to a new box that carries the view and element type of its index |
| CagraHandles.Library.Release | c/src/neighbors/cagra.cpp:379-385 | the box is freed once and the handle is empty |
| CagraHandles.Library.Store | c/src/neighbors/cagra.cpp:574-616 | a dataset handle describes the storage that it was filled with |
| CagraHandles.Library.MakeDataset | c/src/neighbors/cagra.cpp:1615-1844 | a dataset handle exists only after everything else succeeded, and a PQ dataset has float32 queries whatever its source was |
| CagraHandles.Library.CreateIndex | c/src/neighbors/cagra.cpp:1517-1522 | a new handle is empty |
| CagraHandles.Library.CreateDataset | c/src/neighbors/cagra.cpp:1602-1613 | a new dataset handle is empty |
| CagraHandles.Library.Destroy | c/src/neighbors/cagra.cpp:1524-1530 | an index or dataset handle and its cell are gone, and nothing else is |
| CagraHandles.Library.constructor | c/src/neighbors/cagra.cpp:1517-1522 | at first there are no handles and nothing is allocated |
| CagraMemory.Clear | c/src/neighbors/cagra.cpp:379-385 | freeing the cell of one handle leaves every other handle on a cell of its own that fits it |
| CagraMemory.Fill | c/src/neighbors/cagra.cpp:345-366 | a new cell disturbs no other handle |
| CagraMemory.Drop | c/src/neighbors/cagra.cpp:1524-1530 | removing a handle with its cell leaves every other handle as it was |
| CagraMemory.NothingLeaks | c/src/neighbors/cagra.cpp:379-385 | every allocated cell belongs to a handle that leads to it, so without handles nothing is allocated |
| CagraMemory.SwapCells | c/src/neighbors/cagra.cpp:1267-1281 | taking the new cell before freeing the old one disturbs no other handle |
| CagraRuns.EveryRunIsWellTyped | c/src/neighbors/cagra.cpp:1846-2245 | in every run the dtype of a non-empty handle is a supported one and PQ indices and datasets are float32 |
| CagraRuns.StepKeepsTypes | c/src/neighbors/cagra.cpp:1846-2245 | one call keeps all handles well typed |
| CagraRuns.UntouchedHandlesStay | c/src/neighbors/cagra.cpp:1517-2245 | over any sequence of calls a handle changes only by the calls that name it as their target |
| CagraRuns.FailureIsContained | c/src/neighbors/cagra.cpp:1976-1990 | in one step of the reference: a failed call changes nothing, except that a build, from-args or merge that passed its first checks leaves its target empty |
| CagraRuns.MergeSucceedsExactly | c/src/neighbors/cagra.cpp:2185-2245 | in one step of the reference: exactly when a merge succeeds |
| CagraRuns.MergeIntoAnInputLosesIt | c/src/neighbors/cagra.cpp:2225-2228 | in one step of the reference: a merge into one of its own inputs is accepted, frees that input and then fails |
| CagraRuns.UpdatedIndexIsSearchable | c/src/neighbors/cagra.cpp:2096-2105 | in one step of the reference: after a successful update the next search of the index's dtype is accepted, whatever layout it had |
| CagraRuns.LoadedDatasetHelpsOnlyIfSearchable | c/src/neighbors/cagra.cpp:2449-2474 | in one step of the reference: the dataset that was loaded with an index can be attached to it exactly when the index can be searched already |
| CagraRuns.SuccessMayLeaveEmpty | c/src/neighbors/cagra.cpp:856-890 | in one step of the reference: from-args succeeds with an empty handle exactly for a tensor in neither memory |
| CagraMeaning.BuildExactly | c/src/neighbors/cagra.cpp:1899-2010 | a build succeeds exactly when the dataset is filled, params and index are given and the library succeeds; the index is then one over the dataset's own memory and layout, and its next search is accepted exactly for queries of its dtype over a padded or PQ dataset on the device; a failed library call leaves it empty |
| CagraMeaning.FromArgsExactly | c/src/neighbors/cagra.cpp:838-889 | from-args succeeds exactly for a supported type and a device tensor that the library accepts, or a tensor in neither memory; a device tensor gives a padded index exactly when its rows have the padded width, and only then can it be searched |
| CagraMeaning.UpdateExactly | c/src/neighbors/cagra.cpp:1846-1893 | an update succeeds exactly for a non-empty index and a filled padded or PQ dataset of its dtype on the device, and the index is then one over that dataset |
| CagraMeaning.ExtendExactly | c/src/neighbors/cagra.cpp:2039-2066 | an extension succeeds exactly for an index over a padded device dataset and a filled one of the same dtype, memory and layout, and changes no handle |
| CagraMeaning.SearchExactly | c/src/neighbors/cagra.cpp:2068-2123 | a search changes nothing and succeeds exactly for tensors that are given, an index over a padded or PQ dataset on the device and queries of its dtype |
| CagraMeaning.DeserializeGraphExactly | c/src/neighbors/cagra.cpp:2431-2447 | a graph is loaded exactly when name, handle and file are given, the file's type is supported and all reading succeeds; the index can then be searched |
| CagraMeaning.DeserializeBothExactly | c/src/neighbors/cagra.cpp:2449-2474 | index and dataset come back in the memory and layout that the file says they were saved in, padded on the device when it says nothing |
| CagraMeaning.MergeExactly | c/src/neighbors/cagra.cpp:2185-2245 | a merge succeeds exactly when all is given, the output is no input, the algorithm is one of three, all inputs are built with one dtype over one dense device layout, no bitmap is given, and the library merges on the device or, without a filter and not with FASTENER, on the host |
| CagraMeaning.MergeYields | c/src/neighbors/cagra.cpp:149-264 | a merge leaves an index and a dataset handle of the inputs' dtype and layout, on the host exactly when the device ran out of memory |
| CagraMeaning.MakeExactly | c/src/neighbors/cagra.cpp:1615-1844 | exactly when each kind of dataset handle is made, and what it then holds |
| CagraMeaning.HandlesComeAndGo | c/src/neighbors/cagra.cpp:1517-1613 | new handles are empty, destroyed handles are gone, and no other handle is touched |
| CagraMeaning.DispatchExactly | c/src/neighbors/cagra.cpp:1993-2008 | the supported element types, by their DLPack codes and widths, and the type that each selects |
| CagraMeaning.ViewsExactly | c/src/neighbors/cagra.cpp:63-79 | memory and layout of each of the six index types, which determine it |
| MergeRows.MergeOnHost | c/src/neighbors/cagra.cpp:208-232 | every write is inside the buffer, row r of the result is the r-th row of the concatenated inputs, and everything else keeps the zero fill, for every stride that is at least the dimension |
| MergeRows.CopyMatrix | c/src/neighbors/cagra.cpp:218-230 | one input is appended row by row behind the rows already there |
| MergeRows.CopyRow | c/src/neighbors/cagra.cpp:220-226 | one row is copied from one stride to the other |
| MergeRows.RowsComeBack | c/src/neighbors/cagra.cpp:214-232 | read with its stride, the buffer is a matrix of exactly the concatenated rows |
| MergeRows.EveryCellArrives | c/src/neighbors/cagra.cpp:208-232 | element (r, c) of input k is in the buffer, c columns into the row that is r rows behind all rows of the inputs before it |
| MergeRows.PaddingIsZero | c/src/neighbors/cagra.cpp:208-232 | everything behind the last row or the last column of a row is zero |
| MergeRows.RowAdded | c/src/neighbors/cagra.cpp:218-230 | writing at the next multiple of the stride adds one row and keeps padding and earlier rows |
| ApiScopes.InferCppContext | fern/scripts/generate_api_reference.py:3774-3825 | the depth-counting loop returns the namespace, the classes and the access of the scopes that a scan from the end of the source finds unclosed |
| ApiScopes.IsPublicCppMemberContext | fern/scripts/generate_api_reference.py:3828-3830 | a position is public exactly when the innermost unclosed class or struct has the public label last, or is a struct without label, or there is none |
| ApiScopes.UnclosedIsRun | fern/scripts/generate_api_reference.py:3785-3813 | the stack machine with its clamped depth agrees with the right-to-left scan for every token sequence, unbalanced ones included |
| ApiScopes.BlockChangesNothing | fern/scripts/generate_api_reference.py:3785-3813 | a complete block, with any scopes, braces and labels inside, leaves stack, depth and access unchanged |
| ApiScopes.BlocksMayBeRemoved | fern/scripts/generate_api_reference.py:3785-3813 | removing a complete block anywhere in the source does not change the result |
| ApiScopes.OuterStays | fern/scripts/generate_api_reference.py:3808-3813 | tokens that close no more than they opened leave everything below the innermost open brace alone |
| ApiScopes.OpenedCompound | fern/scripts/generate_api_reference.py:3790-3800 | a class that has just been opened is private and a struct public, inside the classes and namespaces open before it |
| ApiScopes.LabelDecides | fern/scripts/generate_api_reference.py:3801-3807 | a label that stands directly in a class or struct, behind complete blocks and other labels, decides about the access and changes nothing else |
| ApiScopes.LabelIgnored | fern/scripts/generate_api_reference.py:3786-3809 | in a namespace or a plain brace a label is ignored, and the access is that of the class around it |
| ApiScopes.JoinedNames | fern/scripts/generate_api_reference.py:3814-3825 | the namespaces are joined by `::` |
| ApiScopes.PopTo | fern/scripts/generate_api_reference.py:3810-3813 | the popping loop removes exactly the scope of the closed brace, or nothing for a plain one |
| ApiScopes.Relabelled | fern/scripts/generate_api_reference.py:3802-3807 | comparing the scope's depth with the current one finds out whether the innermost open brace is the class's own |
| ApiScopes.Collect | fern/scripts/generate_api_reference.py:3814-3825 | namespaces, classes and access are read off the stack |
| ApiSplit.SplitTopLevel | fern/scripts/generate_api_reference.py:6116-6126 | the loop computes the pieces, and joined by the separator they are the text; it is cut exactly at the separators up to which no rest of the text opens more brackets of a kind than it closes |
| ApiSplit.CutsExactly | fern/scripts/generate_api_reference.py:6116-6126 | the pieces end exactly at the separators up to which no bracket, counted for each kind on its own, is left open |
| ApiSplit.CountersExactly | fern/scripts/generate_api_reference.py:6129-6139 | the counter of a kind of bracket is the largest number by which some rest of the text opens more brackets of the kind than it closes, counted by characters |
| ApiSplit.CountersOfProperText | fern/scripts/generate_api_reference.py:6129-6139 | where no beginning closes more than it opens, the counter is the number of opening minus the number of closing brackets of the kind |
| ApiSplit.BalancedTextSplits | fern/scripts/generate_api_reference.py:6116-6139 | a balanced text leaves all counters at zero, and a separator that is no bracket splits behind it |
| ApiSplit.PiecesStayWhole | fern/scripts/generate_api_reference.py:6116-6126 | every piece splits to itself |
| ApiSplit.SplitsExactly | fern/scripts/generate_api_reference.py:6116-6139 | splitting a, separator, b gives the pieces of a and those of b exactly when all counters are zero behind the separator |
| ApiSplit.OpenersNeverSplit | fern/scripts/generate_api_reference.py:6129-6131 | an opening bracket as separator never separates |
| ApiSplit.JoinedPiecesAreTheText | fern/scripts/generate_api_reference.py:6116-6126 | the pieces joined by the separator are the text, from any counters |
| ApiSplit.PiecesOfCat | fern/scripts/generate_api_reference.py:6116-6139 | the pieces of two adjacent texts are those of the first glued to those of the second at the counters in between |
| TidyArguments.CommandLine.RemoveItemsPlusOne | cpp/scripts/run-clang-tidy.py:174-186 | deleting in place by indices found beforehand is dropping each option with the head of what is left behind it, then every word that begins with an option and an equals sign, character by character; it is what a left-to-right parser drops whenever that keeps nothing after a pair of adjacent options |
| TidyArguments.CommandLine.DeleteWithArguments | cpp/scripts/run-clang-tidy.py:174-178 | the indices stay valid although words are deleted, and the result is the right-to-left recursion |
| TidyArguments.CommandLine.DeleteAll | cpp/scripts/run-clang-tidy.py:169-171 | deleting the found indices from the last to the first is a filter |
| TidyArguments.CommandLine.RemoveItems | cpp/scripts/run-clang-tidy.py:169-171 | all words that are options are removed, and no others |
| TidyArguments.HasValueExactly | cpp/scripts/run-clang-tidy.py:179-184 | which words carry a value, character by character |
| TidyArguments.WithoutExactly | cpp/scripts/run-clang-tidy.py:169-171 | the words that are not dropped stay, all of them and in their order |
| TidyArguments.OptionTakesNext | cpp/scripts/run-clang-tidy.py:174-178 | an option goes with the word behind it when that is no option, and alone at the end |
| TidyArguments.GetIndex | cpp/scripts/run-clang-tidy.py:163-166 | the indices of exactly the words found, in order and each once |
| TidyArguments.AgreesExactly | cpp/scripts/run-clang-tidy.py:174-178 | the right-to-left deletion and a left-to-right parser give the same words if and only if the parser keeps nothing after the first option whose argument is an option |
| TidyArguments.AgreesWithoutAdjacentOptions | cpp/scripts/run-clang-tidy.py:174-178 | they agree when no option directly follows another |
| TidyArguments.AdjacentOptionsTakeMore | cpp/scripts/run-clang-tidy.py:174-178 | two adjacent options on which they differ |
| TidyArguments.StripsAtLeastAsMuch | cpp/scripts/run-clang-tidy.py:174-178 | the deletion never keeps more words than the parser |
| GoRowWidth.CagraRequiredRowWidth | go/cagra/cagra.go:40-46 | the result is the least width not below the columns whose byte size is a multiple of 16, for every positive element size |
| GoRowWidth.NoSmallerWidth | go/cagra/cagra.go:40-46 | no width between the columns and the required one has a byte size that is a multiple of 16 |
| GoRowWidth.RequiredWidthFacts | go/cagra/cagra.go:40-46 | the width is unique and idempotent, and equals the columns exactly when they are aligned |
| GoRowWidth.IsCagraPaddedTensor | go/cagra/cagra.go:59-72 | a matrix without strides is padded exactly when its row byte size is a multiple of 16, one with strides exactly when its row stride is the required width |
| GoRowWidth.Gcd | go/cagra/cagra.go:48-53 | Euclid's loop returns a common divisor that is a combination of both numbers |
| GoRowWidth.Lcm | go/cagra/cagra.go:55-57 | the result is a common multiple that divides every common multiple |
| GoRowWidth.GcdIsGreatest | go/cagra/cagra.go:48-53 | every common divisor divides the result of the loop |
| GoRowWidth.LcmDivides | go/cagra/cagra.go:55-57 | a/gcd*b divides every common multiple |
| GoBitset.CreateBitset | go/cagra/cagra.go:347-367 | the array is the smallest one for the largest id, one word when the list is empty, and bit id % 32, counted from the lowest, of word id / 32 is set exactly when the id is in the list |
| GoBitset.BitOfNumber | go/cagra/cagra.go:361-364 | bit q of a word is the one that a shift of its number by q brings to the lowest place |
| GoBitset.MaxId | go/cagra/cagra.go:350-355 | the largest id of the list, or zero |
| GoTensor.RoundTrip | go/dlpack.go:27-374 | a tensor that is made, moved to the device, expanded any number of times, moved back and sliced has its rows followed by those of all batches whose expansion succeeded, in order, and by all batches when each has the tensor's columns and every call succeeds; when a transfer fails it keeps these contents where it is; without a failing free the device is as before, with the tensor's one block more when only the way back fails |
| GoTensor.Tensor.Expand | go/dlpack.go:250-322 | the call succeeds exactly for a tensor on the device, a first row of its columns, no row that passes the end of the buffer and library calls that all succeed; it panics exactly on the device without a row or with a row that passes the end, and refuses exactly a tensor on the host or other columns; on success the new rows are appended and the old block is freed with its own size; otherwise the tensor is unchanged, and the device is too when what was allocated is freed |
| GoTensor.AppendedExactly | go/dlpack.go:250-322 | a batch is appended whole exactly when it has a row, its first row has the tensor's columns, no row passes the end and every call succeeds, and otherwise not at all |
| GoTensor.Tensor.Enlarge | go/dlpack.go:274-306 | the new block holds the old data and the new data behind it, and a failed copy frees it with the size it was allocated with |
| GoTensor.Tensor.ToDevice | go/dlpack.go:216-241 | success moves the contents into a new block of exactly their size; failure leaves the tensor where it is and the device as it was |
| GoTensor.Tensor.ToHost | go/dlpack.go:325-355 | success moves the contents back and frees the block with its own size; failure changes nothing |
| GoTensor.Tensor.Slice | go/dlpack.go:358-374 | a tensor on the host gives back its rows, one on the device is refused |
| GoTensor.Tensor.SizeInBytes | go/dlpack.go:408-410 | the byte count of the contents |
| GoTensor.CalculateBytes | go/dlpack.go:412-421 | the loop computes the number of elements of any shape, in bytes |
| GoTensor.Tensor.CloseOnDevice | go/dlpack.go:184-193 | the block is freed with the byte count that it was allocated with |
| GoTensor.NewTensor | go/dlpack.go:27-77 | data without a first element is refused; otherwise the tensor holds what the copying loop leaves in a buffer of undefined contents, which for rows of one length is the data |
| GoTensor.Tensor.constructor | go/dlpack.go:47-76 | a new tensor on the host has the shape of the data and holds the copied rows |
| GoTensor.FlattenData | go/dlpack.go:401-406 | for rows of any lengths: each is copied to its place as far as there is room, over what an earlier one has left |
| GoTensor.LayeredAt | go/dlpack.go:401-406 | a position of the buffer holds the element of the last row that reaches it |
| GoTensor.LayeredBeside | go/dlpack.go:401-406 | a position that no row reaches is left as it was |
| GoTensor.FlattenNew | go/dlpack.go:255-262 | the loops write the new rows into zeros, and panic exactly when a row passes the end of the buffer |
| GoTensor.RectangularIsTaken | go/dlpack.go:401-406 | rows of one length are taken as they are, whatever was in the buffer |
| GoTensor.RowsOfAreFlat | go/dlpack.go:363-371 | flat data read as rows is that data |
| GoTensor.Unflatten | go/dlpack.go:363-371 | the rows come back out of the flat data |
| GoTensor.FlattenAt | go/dlpack.go:367-370 | element j of row i is at i times the columns plus j |
| AbiCheck.AnalyzeCAbi | ci/check_c_abi/check_c_abi/abi.py:346-354 | there is no error exactly when every old function, struct and enum constant is kept, and an error about exactly the names that are not |
| AbiCheck.AnalyzeFunctionAbi | ci/check_c_abi/check_c_abi/abi.py:216-268 | an error is reported about exactly the functions whose last new definition is gone or has other return or parameter types at some position; a removal exactly for those that are gone |
| AbiCheck.AnalyzeStructAbi | ci/check_c_abi/check_c_abi/abi.py:271-312 | an error is reported about exactly the structs that are gone or have another type at the position of an old member; a removal exactly for those that are gone |
| AbiCheck.AnalyzeEnumAbi | ci/check_c_abi/check_c_abi/abi.py:315-343 | an error is reported about exactly the constants that are gone or changed their value, the last definition of a name in any enum deciding; a removal for those that are gone and a change for the others |
| AbiCheck.FunctionKeptExactly | ci/check_c_abi/check_c_abi/abi.py:216-268 | an old function is kept exactly when the last new definition of its name has the same return type and the same parameter types position by position |
| AbiCheck.StructKeptExactly | ci/check_c_abi/check_c_abi/abi.py:271-312 | an old struct is kept exactly when the last new definition of its name has every old type at its position |
| AbiCheck.ConstantKeptExactly | ci/check_c_abi/check_c_abi/abi.py:315-343 | an old constant is kept exactly when the last new constant of its name, in any enum, has the same value |
| AbiCheck.TableExactly | ci/check_c_abi/check_c_abi/abi.py:223-224 | the last definition of a name is the one in the dictionary |
| AbiCheck.ConstantsExactly | ci/check_c_abi/check_c_abi/abi.py:315-330 | the constants of all enums share one dictionary, in which the last one of a name wins |
| AbiCheck.CompareFunctions | ci/check_c_abi/check_c_abi/abi.py:237-268 | walking both parameter lists to the longer end: no error exactly when the return types are equal and both lists have the same types position by position, and each kind of error exactly for its difference |
| AbiCheck.CompareStructs | ci/check_c_abi/check_c_abi/abi.py:291-312 | walking both member lists: no error exactly when every old member has its type at its position in the new list, which may be longer, and each kind of error exactly for its difference |
| AbiCheck.ReleasesCompose | ci/check_c_abi/check_c_abi/abi.py:346-354 | if every release is compatible with the one before it, the last is compatible with the first |
| AbiCheck.CompatibleIsTransitive | ci/check_c_abi/check_c_abi/abi.py:346-354 | compatibility is transitive |
| AbiCheck.CompatibleIsReflexive | ci/check_c_abi/check_c_abi/abi.py:346-354 | an interface is compatible with itself |
| AbiCheck.RenamingIsNotSeen | ci/check_c_abi/check_c_abi/abi.py:274-277 | members that are renamed, or reordered among equal types, are not found |
| AbiCheck.Keys | ci/check_c_abi/check_c_abi/abi.py:223-224 | a dictionary comprehension over definitions has exactly the defined names as keys |

## Left out

Memory-pool registry:

- Calls that change a device's resource without the registry (`cuvsRMMPoolMemoryResourceEnable`,
  `cuvsRMMAsyncMemoryResourceEnable`, `cuvsRMMMemoryResourceReset`), which would overwrite what it restores.
- A failing allocation of the list node itself, and a failing change of the CUDA device, both outside the
  try block. Percentages are checked, but the size of a pool is not part of the model.
- A release that throws: putting a resource back is assumed to succeed. The source has no catch block there; a
  throw would leave the handle with an entry that has been popped.
- The mutex: critical sections are steps that follow one another in any order.

Matrix products:

- Reading JSON files, command-line arguments and the texts of the warnings; a warning is its kind and path.
- Generators are followed to their end, and a queue is a value: that yields and warnings alternate in time, and
  that a queue is an iterator with one consumer at a time, is not modelled. Neither is the depth of Python's stack.
- MatrixWarnings.QuietExactly: is about the documents that raise nothing, as the convention is; which warnings come
  before an exception is what `MatrixTraversal.IterateMatrixProduct` states of every document.

Placeholders:

- The formatter itself: the round trip is stated for a formatter that changes nothing.
- Character encodings; a text is a sequence of characters.

CAGRA handles:

- The library behind the interface: graph construction, search, merging and saved files are outcomes that
  succeed or fail. What a failed library call leaves inside an index that it was given is not modelled.
- `cuvsCagraIndexGetDims`, `cuvsCagraIndexGetSize` and `cuvsCagraIndexGetGraphDegree`, which cast every index
  as if its elements were float, whatever they are.
- `cuvsCagraSearchMultiPartition`, `cuvsCagraIndexGetDataset`, `cuvsCagraIndexGetGraph` and the serializers,
  which only read a handle, as a search does, and all parameter structures.
- Memory that runs out between the construction of an index and its box, and C++ objects other than boxes
  and dataset storage.
- That a dataset outlives the index that refers to it, which the interface leaves to its caller; the quantizer
  handles from which BBQ views are made.

Host merge:

- How a dataset class computes its stride and the size of its buffer: the result holds for every stride that
  is at least the dimension and every buffer that has room for all rows, with or without the last padding.
- CUDA streams and the width of `size_t`; `raft::copy_matrix` is the copy of rows that it is documented to be.

API reference generator:

- The regular expression that finds the tokens and the removal of comments: the scanner's input is the
  token sequence. All Markdown output.

clang-tidy runner:

- The rewriting of `-Xcompiler` and `-Xptxas` options, subprocesses and the process pool.

Go bindings:

- Overflow of 64-bit integers in row widths and byte counts, and negative shapes.
- GoTensor.Tensor.ToHost: for a tensor on the host the copy is assumed to fail; the source does not check, and would
  otherwise free a host pointer on the device.
- GoTensor.RoundTrip: is stated for rows of one length, without which there are no original rows to come back; the
  single calls are stated for rows of any lengths.
- Tensors that do not have two dimensions.
- Host memory: data that moves to the device leaves its host copy allocated, and failed copies to the host
  leak theirs; neither is counted.
- GoBitset.CreateBitset: a 32-bit word is the sequence of its bits, and shifts and masks of ids are divisions and
  remainders.

ABI check:

- libclang, the extraction of symbols, and the wording and locations of the messages.

Not modelled at all: CUDA kernels, the other language bindings, the parameter structures of the other
algorithms, build scripts and notebooks, which would add only easy members.
