# OOPS virtual machine: collector, heap, class loader, dispatch and call stack

This project models the memory and class-loading core of the OOPS virtual machine and proves what
that core promises: a copying collection is an isomorphism on what the roots reach, a program finds
in every slot, field and byte what it last put there and cannot tell the two-space heap from one whose
objects never move, loading a class succeeds for exactly the names it should whatever was loaded before,
field indices and virtual method indices resolved in a superclass stay right in every subclass, and a
call's arguments arrive where the callee reads them.

`dafny verify dfyconfig.toml` checks the whole project.

## How the files fit together

| file | what it holds |
|---|---|
| `Layout.dfy`, `ClassHeader.dfy` | per-type sections of a class's fields, the header that records them, instance and static passes of the loader |
| `Exports.dfy`, `Dispatch.dfy`, `FieldReflection.dfy` | sorted export tables and reflection; virtual method tables and when dispatch by index is right; fields found through export tables |
| `InstanceofTable.dfy`, `ClassLoader.dfy`, `Sorting.dfy` | the recursive loader with its two caches, its metaspace and its superclass table; sorting and binary search |
| `Values.dfy` | values of the seven types as bytes, read back from fields, statics and array elements |
| `Objects.dfy` | blocks and their bytes, roots, states, reachability, and `Image`: one state is a part of another moved by an injective renaming |
| `Evacuation.dfy`, `StopAndCopy.dfy` | the invariant of a running collection as a value, and the collector class whose methods keep it |
| `Semispace.dfy` | the bump allocators, the two spaces and the resizing policy |
| `Machine.dfy`, `Heap.dfy` | stores, frames and handles as steps on states; the heap class |
| `Refinement.dfy`, `Histories.dfy`, `Execution.dfy` | runs, the heap that never moves anything, what was last put where, and the heap class performing any list of operations |
| `CallStack.dfy`, `StackRoots.dfy` | stack memory word by word, frame headers, argument copying and the walks over it; the collector walking those words |
| `Prelude.dfy` | small facts about sequences |

The sources change state in place, and so do the classes here. A class's methods are proved against
functions and predicates on values (`Progress`, `State`, `Extend`, `Chain`, `LayoutOf`), and the main
results are lemmas about those.

The same relation `Image` says that a collection is an isomorphism and that the two-space heap is
the simple heap renamed; `ImageCompose` joins the two, which is why a collection in the middle of a
run goes unnoticed. The layout written by the loader is what gives an object its reference section
(`LoadedHeadersAreMaps`), and so what the collector scans.

## Where the model departs from the code

The code is unfinished in places. Where a step as written cannot do what the code around it plainly
expects, the model has the repaired step, and where it is short a lemma shows the step as written
failing.

- **Forwarding mark** (gc/stop_and_copy.cpp:24-27,45-46). The mark stores the old first word with a bit
  set, and the reader takes it for the new address; the bit is also part of an array's element type.
  The model stores the new address under its own tag.
- **Object size** (memory/oheap.cpp:14,23-25,55 against gc/stop_and_copy.cpp:33-40,91,104). Allocation
  takes an 8-byte prefix more than copying and scanning do. All three use `BlockSize`, rounded to words
  by the helper that the code defines and does not call (memory/oheap.cpp:9-11).
- **Headers** (memory/oheap.cpp:18,30). Neither allocation writes the class pointer or the array header;
  the model writes them into memory that is zero when committed.
- **Spaces** (gc/semispace_allocator.cpp:27-52, memory/bump_allocator.cpp:31-36,54-59). The epilogue
  records how much was copied, giving memory back lowers the committed bound, and growth is bounded by
  what remains of the reservation.
- **Root ranges** (classes/class.cpp:310-317, gc/stack_iterators.h:59-62, gc/class_iterators.h:61-64).
  The static walk ends at the double offset, the stack walk steps by two words, and a class block
  records its size.
- **Argument copy** (memory/ostack.cpp:81,91,102-105,131,142,148-151). Pointer slots are nulled first,
  the callee's section starts are used, and copying advances by words.
- **Static offsets** (classloader/classloader_impl.cpp:164-168). Start offsets accumulate.
- **Virtual methods** (classloader/classloader_impl.cpp:189-207). A virtual method's export carries its
  table index, as specs/CallingConvention.md:13-19 says, and fresh indices step by one.
- **Exports** (classloader/loader_iterators.cpp:57-62, classes/class.cpp:259-261,274-279,
  classloader/classloader_impl.cpp:57). Sorting and searching use one lexicographic order, as
  specs/ClassStructure.md:11 asks, and the table holds fields and methods.

## What turned out not to hold

- What a collection leaves committed does not depend on what is asked for. An allocation succeeds if
  and only if there is room, or a collection can start and the live bytes with the new block fit the
  resized space (`Heaps.Heap.AllocateMemory`, `Execution.Perform`). So an empty heap never grows: with one
  page committed no block of two pages can be had, however much is reserved
  (`Heaps.Heap.EmptyHeapNeverGrows`, `Heaps.Heap.TwoPagesFromOne`). And start-up commits nothing, so **no
  allocation ever succeeds** (`Heaps.Heap.NothingObtainable`, `Execution.PerformAll`).
- Dispatch by index is right if and only if every virtual method's nearest export up the chain is absent
  or carries that name's own slot (`Dispatch.DispatchExactlyWhenRouted`). A field or static method that
  hides a virtual name above a subclass that declares the name again breaks it unless the number recorded
  for it happens to be that slot: with virtual f and g, a lone reference field g gets index 0, and the
  subclass's g lands in the slot of f (`FieldReflection.NameClashMisroutes`).
- The fields of an object lie apart and inside it if and only if all of them together need less than
  2^32 bytes (`ClassHeaders.LaidOutExactlyWhenFitting`; `ClassHeaders.OverflowOverlaps` is one chain
  beyond that). The counts read back from a header are the counts written if and only if every single
  section fits 32 bits (`Layout.CountsRoundTrip`). An export's index is read back as written if and only
  if it fits 24 bits (`Exports.EntryRoundTrip`), and so a field found by name in a superclass is reached
  in its place in a subclass's object if and only if its index does (`FieldReflection.FieldReached`).
- The size request for an array is right if and only if its length is not negative; the code does not
  look at the sign (`Objects.ArrayRequestHolds`).
- The superclass table answers for directly declared superclasses only: it is neither reflexive nor
  transitive (`ClassLoaders.ClassLoader.IsSuperclass`).
- As written, the sort puts names in an order of its own, reversed where they differ in a byte
  (`Exports.SortAsWrittenReversed`), and the search of a table so sorted finds a name if and only if halving
  reaches an entry of it past nothing but shorter names (`Exports.FoundAsWrittenExactly`). A class that
  exports "a" and "b" gets the table "b", "a", in which "a" is missed (`Exports.SearchAsWrittenMisses`).
  Repairing the sort alone does not repair the search (`Exports.FoundWhenSorted`).
- The section starts of statics as written are right if and only if no static is wider than SHORT
  (`ClassHeaders.StartsAsWrittenRight`); one OBJECT, one DOUBLE and one LONG collide
  (`ClassHeaders.StartsAsWrittenCollide`).
- As written, growing a space is refused if and only if something is committed and the growth exceeds what
  remains of the reservation (`Semispaces.GrowthAsWrittenRefused`).

## Model

| member | source | states |
|---|---|---|
| `Objects.AlignedMemoryAmount` | memory/oheap.cpp:9-11 | the least multiple of 8 that holds the amount |
| `Objects.PayloadFills` | memory/oheap.cpp:13-25 | the bytes behind an object's first word are as many as its class's object size, or its length times the element size |
| `Objects.BlockHoldsPayload` | memory/oheap.cpp:13-25 | the allocation holds prefix, first word and payload, with less than a word to spare |
| `Objects.FieldStored` | classes/object.h:127-136 | every inherited or own field finds its place among the references or in the data of an instance, and a store there is the store of its value at its offset into the bytes |
| `Heaps.ObjectsApart` | memory/oheap.cpp:54-60 | in a valid heap no two objects share a byte of prefix, first word or payload, and all lie between the start of the space and its used end |
| `Values.DecodeEncode` | classes/datatypes.h:13-21 | every value of a type is read back from the bytes the type's size gives it |
| `Values.EncodeDecode` | classes/datatypes.h:13-21 | whatever those bytes hold is a value of the type and is written back as it was, so no size is too large |
| `Values.FieldsReadBack` | classes/object.h:118-136 | in an object of any fitting chain of classes, values written to two different fields are both read back |
| `Values.StaticsReadBack` | classes/class.h:104-113 | the same for two statics of a class |
| `Values.ElementsReadBack` | classes/object.h:45-57 | the same for two elements of an array, which all fit its payload |
| `Objects.LoadedHeadersAreMaps` | classloader/class_writer.cpp:134-158 | the header of any chain of classes that fits 32 bits gives the collector a pointer map of whole words inside the object, one word for each inherited or own reference field |
| `Objects.LiveIsClosed` | gc/stop_and_copy.cpp:12-49 | in a heap without dangling references, what is reachable from statics, frame slots and handles refers only to reachable objects or out of the heap |
| `Objects.ImageCompose` | gc/stop_and_copy.cpp:12-127 | an isomorphic copy of an isomorphic copy is one: renamings compose on headers, data, every pointer field and all roots |
| `StopAndCopy.ArrayWordReadsBack` | classes/object.cpp:27-52 | length and element type read back from an array header as they were written |
| `StopAndCopy.ClassWordReadsBack` | classes/object.cpp:38-40 | an aligned class pointer never reads as an array or as forwarded |
| `StopAndCopy.ArraysMistakenForForwarded` | gc/stop_and_copy.cpp:24-28 | as written, an array not yet copied passes for forwarded exactly when its element type is SHORT, FLOAT or DOUBLE |
| `StopAndCopy.MarkAsWrittenForgetsAddress` | gc/stop_and_copy.cpp:24-27 | as written, what is read back from a mark is the object's old first word, wherever the object went |
| `StopAndCopy.SizeAsWrittenTooSmall` | gc/stop_and_copy.cpp:33-40 | as written, copying takes fewer bytes than the object was allocated |
| `StopAndCopy.Collector.ForwardObject` | gc/stop_and_copy.cpp:12-49 | for any reference to a live object or out of the range: the collection invariant is kept, the result is where the object is from now on, an object is copied at most once, and the returned free pointer is where the copies end |
| `Evacuation.ForwardingInjective` | gc/stop_and_copy.cpp:45-48 | no two objects are forwarded to one address, and every forwarded address lies between the start of the copies and the free pointer |
| `Evacuation.CopiesFit` | gc/stop_and_copy.cpp:29-48 | copying one more object of the collected space never runs past the bytes that space used |
| `Evacuation.EvacuatedHolds` | gc/stop_and_copy.cpp:29-48 | copying an object to the free pointer keeps every part of the invariant |
| `StopAndCopy.Collector.TrackPointers` | gc/stop_and_copy.cpp:50-60 | every slot of a class's statics, or of a frame, ends as the new place of what it referred to |
| `StopAndCopy.Collector.TrackStackPointers` | gc/stop_and_copy.cpp:61-73 | the same for every frame of a stack, each given as its list of references |
| `StackRoots.TrackFrame` | gc/stack_iterators.h:56-76 | the same for the words of one frame: the walk over its pointer slots forwards each of them; every other word of the stack keeps its value |
| `StackRoots.TrackStack` | gc/stop_and_copy.cpp:61-73 | the same for stack memory: walking from the current frame to the root and along each frame's words leaves, in every frame, exactly the pointers it held, each forwarded; every word outside the pointer slots of pushed frames keeps its value, and the collection invariant is kept |
| `StackRoots.TrackAllStacks` | memory/oheap.cpp:71-74 | the stacks of all executors, each in its own memory, stand for the redirected lists of references |
| `StopAndCopy.Collector.TrackNativePointers` | gc/stop_and_copy.cpp:109-126 | the rebuilt table has the same handles and counts, each keyed by its object's new address, which the handle also holds |
| `StopAndCopy.RenameKeepsDistinct` | gc/stop_and_copy.cpp:116-124 | forwarding makes two keys equal only if they were, so no two entries of the native table merge |
| `Evacuation.ScanSeparates` | gc/stop_and_copy.cpp:74-108 | copies below the scan pointer refer only into the space copied into or out of the heap; copies above it still hold their original references |
| `Evacuation.RedirectedHolds` | gc/stop_and_copy.cpp:83-103 | redirecting the reference at the scan position keeps the invariant and advances the scan |
| `StopAndCopy.Collector.ScanReferences` | gc/stop_and_copy.cpp:80-103 | the references of one copy are redirected one by one while the copied region grows; nothing else of the copy changes |
| `StopAndCopy.Collector.CleanupMigratedObjects` | gc/stop_and_copy.cpp:74-108 | the scan terminates with every copy scanned and the invariant kept |
| `Evacuation.PathCopied` | gc/stop_and_copy.cpp:74-108 | once nothing is left to scan, everything on a path from a root has been copied |
| `Evacuation.CollectionComplete` | gc/stop_and_copy.cpp:12-126 | what a finished collection leaves is an isomorphic copy of exactly the objects reachable from the roots |
| `Evacuation.CopiedBytes` | gc/stop_and_copy.cpp:29-48 | a finished collection has copied exactly as many bytes as the blocks reachable from the roots take up |
| `Evacuation.SurvivorsTile` | gc/stop_and_copy.cpp:40-48 | the survivors fill their space from its start to the free pointer without gaps |
| `Semispaces.RoundForCommit` | gc/semispace_allocator.cpp:20-24 | the least page multiple at or above the amount |
| `Semispaces.WantedKeepsLive` | gc/semispace_allocator.cpp:27-49 | resizing never asks for less than the live bytes, and what it asks for is saturated no more than allowed |
| `Semispaces.WantedIsTight` | gc/semispace_allocator.cpp:34-49 | shrinking ends less than one page above its target and never grows the space; growing overshoots by less than a page |
| `Semispaces.ResizedSaturation` | gc/semispace_allocator.cpp:27-49 | after a resize the space is saturated no more than allowed, or the whole reservation is committed, or growth was wanted and refused |
| `Semispaces.ResizedInNumbers` | gc/semispace_allocator.cpp:27-49 | by used and committed bytes alone: below the minimum saturation what stays is the old size or the least pages that reach that saturation and the minimum heap, above the maximum it is the least pages that come down to it as far as the reservation goes and growth is granted, in between nothing changes, and no resize goes below the minimum heap |
| `Semispaces.EmptyNeverGrows` | gc/semispace_allocator.cpp:34-38 | with no live bytes a resize never commits more, whatever is granted |
| `Semispaces.GrowthAsWrittenRefused` | memory/bump_allocator.cpp:54-59 | as written, growth is refused outright exactly when something is committed and the amount exceeds what remains |
| `Semispaces.BumpAllocator.Allocate` | memory/bump_allocator.cpp:21-29 | succeeds exactly when the amount fits the committed part, and then returns and advances the old end |
| `Semispaces.BumpAllocator.Commit` | memory/bump_allocator.cpp:42-52 | succeeds exactly when the amount fits the reservation and the platform grants it; otherwise nothing changes |
| `Semispaces.BumpAllocator.CommitToMax` | memory/bump_allocator.cpp:54-59 | grows by the amount or to the end of the reservation, unless the platform refuses |
| `Semispaces.BumpAllocator.Decommit` | memory/bump_allocator.cpp:31-36 | the committed part ends where asked, never below the used part |
| `Semispaces.Semispace.GcPrologue` | gc/semispace_allocator.cpp:10-17 | the idle space, always fully given back between collections, gets exactly as much committed as the collected space has, or nothing changes |
| `Semispaces.Semispace.Resize` | gc/semispace_allocator.cpp:27-49 | the three branches leave committed what the policy wants as far as the reservation goes, and the old size when growth is wanted and refused; in numbers as in `ResizedInNumbers` |
| `Semispaces.Semispace.GcEpilogue` | gc/semispace_allocator.cpp:27-52 | the spaces exchange roles, the copied amount is recorded as used, the other space is given back, and the resized space is saturated no more than allowed unless the reservation is exhausted or growth was refused; in numbers as in `ResizedInNumbers` |
| `Heaps.HandlesRenamed` | gc/stop_and_copy.cpp:109-126 | collection conserves the pairs of handle and count, and each handle holds its object's new address |
| `Heaps.ImageWellFormed` | memory/oheap.cpp:61-78 | a moved copy of a heap without dangling references has none |
| `Heaps.CollectionBegins` | gc/semispace_allocator.cpp:10-17 | the amount the prologue commits is enough for all copies, because the collected space held all objects in that amount |
| `Heaps.TrackClasses` | memory/oheap.cpp:68-70 | the statics of every class are redirected and the collection invariant is kept |
| `Heaps.TrackStacks` | memory/oheap.cpp:71-74 | the same for the stack of every executor |
| `Heaps.CopyLive` | memory/oheap.cpp:67-77 | statics, stacks, handles and then the scan: the result is the isomorphic copy of what is reachable, with all root tables redirected; it takes exactly the live bytes and ends at or below the committed bound |
| `StackRoots.CopyLiveFromStacks` | memory/oheap.cpp:67-77 | the same with the executors' stacks as memory instead of lists: afterwards their words stand for the redirected lists, and no other word of them has changed |
| `Heaps.Heap.CollectGarbage` | memory/oheap.cpp:61-78 | if the copies can be committed, the heap's state becomes the image of a full collection, the spaces are exchanged, exactly the live bytes are used, and the committed size is the resized one; otherwise nothing changes; the bytes used and committed are the same when none can start; in numbers as in `ResizedInNumbers` |
| `Heaps.Heap.AllocateMemory` | memory/oheap.cpp:54-85 | with room, memory behind the last object and no collection; otherwise exactly one collection if one can start. It succeeds if and only if there was room, or a collection could start and the live bytes with the request fit what the resize leaves committed. The bytes used and committed afterwards are those it predicts: what was there, or what the collection leaves, plus the request where it fits |
| `Heaps.Heap.AllocateObject` | memory/oheap.cpp:13-19 | a zeroed instance with its class at an unused address; it collects exactly when there is no room and a collection can start, and succeeds exactly under the condition of `AllocateMemory`, which looks only at the heap before the call; the bytes used and committed afterwards are those `AllocateMemory` predicts for its size; every reference in it is null and every byte zero |
| `Heaps.Heap.AllocateArray` | memory/oheap.cpp:21-31 | the same for arrays of every element type and natural length |
| `Heaps.Heap.EmptyHeapNeverGrows` | gc/semispace_allocator.cpp:27-52 | on an empty heap collecting never helps: an allocation succeeds exactly if there is room |
| `Heaps.Heap.TwoPagesFromOne` | gc/semispace_allocator.cpp:27-52 | an empty heap with one page committed cannot give two pages, however large the reservation |
| `Heaps.Heap.NothingObtainable` | logues/bump_allocator.cpp:7-16 | with nothing committed, as start-up leaves it, no allocation can succeed |
| `Objects.ArrayRequestHolds` | memory/oheap.cpp:21-25 | the 64-bit size request for an array is its header and elements if and only if the signed length is not negative |
| `Heaps.Heap.WritePointer` | classes/object.h:128-133 | reference i of the object is the one given; every other reference, all data, headers, objects and roots are as they were |
| `Heaps.Heap.WriteData` | classes/object.h:51-54 | the bytes at the offset are those of the value, of any width; every other byte, all references, headers, objects and roots are as they were |
| `Heaps.Heap.WriteStatic` | classes/class.h:104-113 | that static is the reference given; every other root and every object is as it was |
| `Heaps.Heap.WriteSlot` | memory/ostack.h:65-74 | the same for a frame slot |
| `Heaps.Heap.PushFrame` | memory/ostack.cpp:72-112 | slot i of a new current frame holds reference i; every other root, frame and object is as it was |
| `Heaps.Heap.PopFrame` | memory/ostack.cpp:70 | exactly the current frame's references go |
| `Machine.PushPop` | memory/ostack.cpp:70 | popping a frame that was just pushed leaves everything as it was before |
| `Heaps.Heap.AllocateNativeReference` | memory/oheap.cpp:38-45 | the object's only handle with one more acquisition; a new handle with count 1 exactly if it had none |
| `Heaps.Heap.DeallocateNativeReference` | memory/oheap.cpp:46-53 | one acquisition less; the last one removes the handle and its table entry |
| `Machine.CountDownWellFormed` | memory/oheap.cpp:46-53 | releasing keeps every count positive, handles and counts in step, and no object with two handles |
| `Machine.AddRelease` | memory/oheap.cpp:38-53 | a handle acquired for the first time and released leaves everything as it was |
| `Refinement.ApplyMatches` | memory/oheap.cpp:38-53 | any operation but allocation shows the program the same on a heap and on a moved copy of it, and keeps them related |
| `Refinement.MayCollectMatches` | memory/oheap.cpp:61-78 | a collection changes nothing a heap that never moves could show |
| `Refinement.StepRefines` | memory/oheap.cpp:54-85 | every step of the two-space heap, collecting or not, is matched by a step of the heap that never moves, with the same result |
| `Refinement.RunRefines` | memory/oheap.cpp:54-85 | for every run of allocations, stores, loads, comparisons, frame pushes and pops and handle operations, the heap that never moves or reuses anything shows the program the same at every step |
| `Histories.SimpleRunAgrees` | memory/oheap.cpp:13-85 | in every run of the heap that never moves, every root, reference and byte holds what the operations so far last put there, null or zero if nothing, and exactly the roots exist that were pushed, acquired or there from the start |
| `Histories.RunAnswers` | memory/oheap.cpp:13-85 | in every run of the two-space heap, whatever it collects, every operation is answered by that history, which knows no heap and no address: a load or comparison shows what was last put there, and an operation is refused exactly if a root, object or index it names does not exist |
| `Refinement.SimpleHeapKeepsObjects` | memory/oheap.cpp:13-31 | in that heap an object stays at its address with its header for the rest of the run |
| `Refinement.CountsAreOutstanding` | memory/oheap.cpp:38-53 | over every run, collections included, a handle's count is what it was plus acquisitions minus releases |
| `Execution.Perform` | memory/oheap.cpp:13-85 | whatever operation it is given, the heap object takes a step of the two-space heap, and an allocation runs out of memory exactly when there was neither room nor enough to gain by collecting; it leaves the bytes used and committed as an allocation predicts, and any other operation leaves them alone |
| `Execution.PerformAll` | memory/oheap.cpp:13-85 | every list of operations on an empty heap object is a run of the two-space heap and shows the program what a run of the heap that never moves shows; from a start with nothing committed no allocation in it is ever done, and if what it allocates fits the committed bytes, none fails and no more is used or committed; every operation of it is answered by what was last put where it looks (`Histories.RunAnswers`) |
| `Layout.FieldInBounds` | classes/class.cpp:323-345 | a field lies in the section of its type, naturally aligned, inside the object |
| `Layout.FieldsDisjoint` | classes/class.cpp:323-345 | two fields never share a byte |
| `Layout.FieldsFill` | classloader/class_writer.cpp:134-158 | every byte below the total size belongs to some field |
| `Layout.CountsRoundTrip` | classes/class.cpp:352-375 | offsets to counts undoes counts to offsets if and only if every section fits 32 bits |
| `Layout.OffsetsRoundTrip` | classes/class.cpp:352-375 | counts to offsets undoes offsets to counts if and only if every stored section holds whole fields |
| `ClassHeaders.HeaderCountsEveryField` | classloader/classloader_impl.cpp:178-188 | reading counts back from superclass headers, class by class, gives the header computed from all inherited and own fields at once |
| `ClassHeaders.IndexKeepsMeaning` | classes/class.cpp:323-345 | the index recorded when an ancestor was loaded finds that same field through the header of every descendant |
| `FieldReflection.FieldReached` | classes/class.cpp:137-140 | a superclass's field, looked up by name in that class's sorted export table, is reached through the header of any subclass in the place it has among all fields there, if and only if its index fits 24 bits |
| `FieldReflection.StaticFound` | classes/class.cpp:141-144 | a static looked up by name is found in its place if and only if that fits 24 bits |
| `ClassHeaders.InheritedFieldsApart` | classes/class.cpp:323-345 | two different fields of an object, whichever classes declared them, lie apart, aligned and below the object size |
| `ClassHeaders.ObjectIsFilled` | classloader/class_writer.cpp:134-158 | no byte of an object is wasted |
| `ClassHeaders.LaidOutExactlyWhenFitting` | classloader/class_writer.cpp:134-158 | all inherited and own fields of an object lie apart and inside it if and only if together they need less than 2^32 bytes |
| `ClassHeaders.StartsAsWrittenRight` | classloader/classloader_impl.cpp:163-168 | as written, the sections of the statics start where they should if and only if no static is wider than SHORT |
| `ClassHeaders.ReferencesComeFirst` | classloader/classloader_impl.cpp:163-177 | the reference statics are exactly the fields below the double offset |
| `ClassHeaders.WalkFindsReferences` | gc/class_iterators.h:36-39 | the offsets the static walk visits are exactly the places of the reference fields |
| `ClassHeaders.WalkEndAsWritten` | classes/class.cpp:310-317 | as written, the walk's end is never the double offset |
| `ClassHeaders.ClassHeader.SetInstanceVariableCounts` | classloader/class_writer.cpp:134-158 | the seven instance fields of the header end as the section starts and the total, each modulo 2^32; the statics are untouched |
| `ClassHeaders.ClassHeader.InheritedVariableCounts` | classes/class.cpp:352-375 | the counts measured from the stored offsets with 32-bit subtraction |
| `ClassHeaders.ClassHeader.AssignInstanceFields` | classloader/classloader_impl.cpp:178-188 | the header is that of the extended chain, and each own field gets the index after all inherited and earlier fields of its type |
| `ClassHeaders.ClassHeader.AssignStaticFields` | classloader/classloader_impl.cpp:163-177 | each static gets its place in sections that fill the static area, and the header records the section starts |
| `ClassHeaders.ClassHeader.SetStaticVariableOffsets` | classloader/class_writer.cpp:26-48 | shifting the final end offsets by one type yields exactly each section's start and the total |
| `ClassHeaders.ClassHeader.StaticPointers` | classes/class.cpp:310-317 | the walk terminates and visits one offset for each reference static, eight bytes apart |
| `Exports.BeforeIsLexicographic` | classes/class.cpp:274-279 | the comparison by `memcmp` and length is the lexicographic order on bytes, proper prefixes first |
| `Exports.NamesOrdered` | classloader/loader_iterators.cpp:57-62 | that order is total, so sorting and searching agree |
| `Exports.EntryRoundTrip` | classloader/loaded_iterators.cpp:42-68 | a table entry reads back the data written exactly when it fits 24 bits, and then its metadata too |
| `Exports.LookupUnordered` | classloader/classloader_impl.cpp:208-209 | sorting the exports of a class with distinct names changes no answer |
| `Exports.NearestAnswers` | classes/class.cpp:291-302 | the search through the superclasses fails exactly when no class up the chain exports the name, and otherwise answers for the nearest that does |
| `Exports.NearestUnordered` | classes/class.cpp:291-302 | sorting every table of a chain changes no answer of that search |
| `Exports.ReflectIndex` | classes/class.cpp:265-289 | binary search answers what a linear search of the table would: the name's first entry, or nothing |
| `Exports.ReflectIndexRecursively` | classes/class.cpp:291-302 | the recursion answers what linear searches of the class and then its superclasses would |
| `Exports.SearchAsWrittenStuck` | classes/class.cpp:274-279 | as written, among names of one length the search comparison never moves past the first entry |
| `Exports.FoundAsWrittenExactly` | classes/class.cpp:265-289 | as written, the search of a table sorted as written finds a name if and only if halving reaches an entry of it past nothing but shorter names |
| `Exports.TableSortedAsWritten` | classloader/loader_iterators.cpp:57-62 | the table a class gets as written is a permutation of its exports, sorted by the comparison as written |
| `Exports.SearchAsWrittenMisses` | classes/class.cpp:265-289 | of the exports "a" and "b", sorted as written to "b", "a", the search as written finds "b" and misses "a" |
| `Exports.FoundWhenSorted` | classes/class.cpp:265-289 | in a table in lexicographic order instead, the search as written finds a name if and only if halving reaches an entry of it past nothing but its proper prefixes in front and names at least as long behind |
| `Exports.SortAsWrittenReversed` | classloader/loader_iterators.cpp:57-62 | as written, the sort order is the reverse of the search order exactly for names of which neither is a proper prefix of the other |
| `Dispatch.ReflectVirtual` | classes/class.cpp:156-160 | the override index found through sorted tables is that of the nearest export of the name |
| `Dispatch.VirtualMethodCount` | classloader/classloader_impl.cpp:40-58 | the table is sized for the primary's entries and one for each virtual method nobody up the chain exports |
| `Dispatch.Preload` | classloader/class_writer.cpp:120-132 | the primary's table is copied to the front, the rest is untouched |
| `Dispatch.SetVirtualMethod` | classloader/class_writer.cpp:113-118 | exactly the given slot changes |
| `Dispatch.LoadMethods` | classloader/classloader_impl.cpp:189-209 | the finished table and the sorted exports are those of the specification: overrides in the slot they name, new methods behind the primary's table in file order |
| `Dispatch.SlotOwned` | classloader/classloader_impl.cpp:195-203 | every slot of a class's table is the recorded index of some virtual method of the chain |
| `Dispatch.RoutedIsGood` | classloader/classloader_impl.cpp:189-207 | if every virtual method is routed, slot s holds the nearest definition of the s-th virtual name in order of first introduction, and every recorded index is its name's position |
| `Dispatch.DispatchExactlyWhenRouted` | classloader/classloader_impl.cpp:189-207 | in every class of a chain each recorded index leads to the nearest definition, if and only if every class's virtual methods were routed: no export of the name up the chain, or one carrying the name's own slot, and an index of 24 bits |
| `Dispatch.UnclashingIsRouted` | classloader/classloader_impl.cpp:195-203 | a guard the loader could check is enough: the nearest export of each virtual name is itself virtual |
| `Dispatch.ResolvedIndexDispatches` | classes/class.cpp:156-175 | the index reflection finds for a virtual name in any class up the chain leads, in the last class's table, to the nearest definition of that name |
| `FieldReflection.LastLoads` | classloader/classloader_impl.cpp:178-203 | with a reference field hiding virtual g, recorded with the index 0 it gets, a subclass's g is written to the slot of f |
| `FieldReflection.NameClashMisroutes` | classloader/classloader_impl.cpp:178-203 | that chain does not dispatch |
| `ClassLoaders.LoadableRule` | classloader/classloader_impl.cpp:107-128 | a name is loadable exactly when its file is readable and all declared superclasses are loadable |
| `ClassLoaders.LoadableIsLeast` | classloader/classloader_impl.cpp:113-128 | loadability is the least fixpoint of that rule |
| `ClassLoaders.CycleNotLoadable` | classloader/classloader.cpp:11-13 | a class that is its own ancestor is not loadable, so a negative entry made while unwinding a cycle is never wrong |
| `ClassLoaders.OnStackNotLoadable` | classloader/classloader.cpp:11-13 | a name met again below itself on the stack of loads is not loadable, so refusing it is right |
| `ClassLoaders.IndicesDescend` | classloader/classloader_impl.cpp:210-224 | along declared superclasses all classes are loaded with falling indices, so the loaded hierarchy is acyclic |
| `ClassLoaders.ClassLoader.LoadClass` | classloader/classloader.cpp:4-6 | after any earlier loads, succeeds if and only if the name is loadable; nothing known before changes; the block of every loaded class holds the header and what its file asks for, and shares no byte with another's |
| `ClassLoaders.ClassLoader.LoadClassUnwrapped` | classloader/classloader.cpp:8-31 | the same in the middle of other loads; restores the set of classes being loaded, keeps it apart from the cache, makes its entry, and only reads when the name is cached; terminates on every file map |
| `ClassLoaders.ClassLoader.Emplace` | classloader/classloader.cpp:25-29 | the entry is new, so it is never lost and changes no other |
| `ClassLoaders.ContiguousApart` | classloader/classloader_impl.cpp:131-132 | blocks of different loaded classes lie apart and below the end of metaspace, each of 96 bytes and the size its file asks for |
| `ClassLoaders.ClassLoader.ImplLoadClass` | classloader/classloader_impl.cpp:102-228 | fails if the file or a superclass does not load and then leaves pointers, indices and table as consistent as before; otherwise the class has the next index, the next block and its own sorted row |
| `ClassLoaders.ClassLoader.LoadSuperclasses` | classloader/classloader_impl.cpp:115-128 | stops at the first superclass that does not load; otherwise all are cached as loaded |
| `ClassLoaders.ClassLoader.EnterSuperclasses` | classloader/classloader_impl.cpp:211-223 | the second pass only hits the cache, so the rows of different classes never interleave |
| `ClassLoaders.ClassLoader.WalkClasses` | gc/class_iterators.h:61-64 | the walk over metaspace ends at its used end and visits every loaded class once, in index order |
| `ClassLoaders.ClassLoader.IsSuperclass` | classloader/instanceof_table.cpp:7-13 | for loaded classes, true exactly for directly declared superclasses |
| `InstanceofTables.RangesPartition` | classloader/instanceof_table.cpp:15-23 | every position of the flat table lies in the range of exactly one class |
| `InstanceofTables.InstanceofTable.InsertIndex` | classloader/instanceof_table.cpp:15-19 | a new empty row at the end; every other row stays |
| `InstanceofTables.InstanceofTable.InsertSuperclass` | classloader/instanceof_table.cpp:20-23 | the last row grows by one; every other row stays |
| `InstanceofTables.InstanceofTable.CommitSuperclasses` | classloader/instanceof_table.cpp:24-29 | the last row is sorted in place; every other row stays |
| `InstanceofTables.InstanceofTable.PopLastClass` | classloader/instanceof_table.cpp:30-33 | the last row is gone; every other row stays |
| `InstanceofTables.InstanceofTable.IsSuperclass` | classloader/instanceof_table.cpp:7-13 | binary search of a committed row answers exactly membership in it |
| `Sorting.SortSorts` | classloader/instanceof_table.cpp:24-29 | sorting yields a sorted permutation for every comparison that is a strict weak order |
| `Sorting.LowerBound` | classloader/instanceof_table.cpp:11 | the position that separates the entries before the key from the rest |
| `CallStacks.PackRoundTrip` | methods/method.h:48-53 | argument types packed two to a byte are read back |
| `CallStacks.SlotInSection` | methods/method.h:69-75 | an argument's slot lies in the callee's section for its type |
| `CallStacks.SlotsApart` | memory/ostack.cpp:122-147 | no two arguments share a word |
| `CallStacks.SlotsConsecutive` | memory/ostack.cpp:84-100 | an argument comes right behind the one before it of its type |
| `CallStacks.FirstSlot` | memory/ostack.cpp:82-83 | the first argument of a type comes at the start of its section |
| `CallStacks.SpanIsSize` | memory/ostack.cpp:84-100 | the words of a section are the bytes of its values |
| `CallStacks.HeaderWords` | memory/ostack.cpp:10-17 | the words of a frame header are its six fields in the order of the struct, without a gap |
| `CallStacks.FramesAscend` | memory/ostack.cpp:160-170 | frames lie one behind the other without overlap |
| `CallStacks.ChainDetermined` | memory/ostack.cpp:46-48 | memory and the current frame determine the whole chain of frames |
| `CallStacks.PushedChain` | memory/ostack.cpp:72-112 | a pushed frame extends the chain: it begins where the previous one ends and points back to it |
| `CallStacks.EarlierFramesKept` | memory/ostack.cpp:72-112 | a push changes no header and no slot of an earlier frame, so a pop gives them back |
| `CallStacks.Stack.AdvanceFrame` | memory/ostack.cpp:160-170 | claims the bytes behind the current frame exactly when they fit the stack; otherwise nothing changes |
| `CallStacks.Stack.CopyArgument` | memory/ostack.cpp:84-100 | puts one value at its slot, disturbs no earlier argument, and skips a code that names no type |
| `CallStacks.Stack.TryPushFrame` | memory/ostack.cpp:72-112 | succeeds exactly when the frame fits; then the words at argument i's place in the callee's section are those the caller's frame had at the slot named for it, other pointer slots are null, the header is filled in, and all other memory is unchanged |
| `CallStacks.Stack.TryPushNativeFrame` | memory/ostack.cpp:113-158 | the same for values from native code: an argument reads as its cell, an object argument as what its handle holds |
| `CallStacks.NewFrameRoots` | memory/ostack.cpp:94-105 | the roots a new frame adds are its object arguments in order, then nulls |
| `CallStacks.Stack.PopFrame` | memory/ostack.cpp:70 | the previous frame is current again and memory is as it was |
| `CallStacks.Stack.WriteSlot` | memory/ostack.h:65-74 | a write inside the current frame keeps all frames and changes only those words |
| `CallStacks.Stack.WalkFrames` | gc/stack_iterators.h:8-29 | the walk to the root terminates and visits every pushed frame once, the last pushed first |
| `CallStacks.Stack.WalkPointerSlots` | gc/stack_iterators.h:56-76 | the walk of a frame terminates and visits exactly its pointer slots, each once |
| `CallStacks.Stack.RedirectSlot` | gc/stack_iterators.h:50-53 | writing through the walk changes that pointer and no other pointer of any frame |
| `CallStacks.WalkAsWritten` | gc/stack_iterators.h:59-62 | as written, the walk ends and meets every pointer slot exactly when there is none |
| `CallStacks.FirstObjectLost` | memory/ostack.cpp:102-105 | as written, the first object argument survives a push exactly when it is null |

## Left out

- Platform calls: reserving is assumed, commits are answered by a parameter and yield zeroed memory, and the page size is a parameter.
- Byte decoding of class files (classloader/class_file_reader.cpp and the import iterators): the loader gets abstract files with their superclasses, members and sizes.
- Imports, string pools and bytecode copying: an export's name stands for its offset into the string pool, and a method's code for the place of its bytecode.
- The executor's loop, instruction decoding, casts and arithmetic.
- `reify_constant_string`: it puts an array inside the string's own block, so the two are not separate objects.
- Atomics and parallelism: the collector stops the world; reference counts are plain numbers.
- ClassLoaders.ClassLoader.ImplLoadClass: metaspace never runs out, because the writer dereferences an empty result before it looks at it; so the failure path after a commit of the superclass table, which cannot be taken, is not modelled. What the block contains is proved in `ClassHeaders` and `Dispatch` for each chain of superclasses and not repeated here.
- Start-up and tear-down beyond the initial state: `stack::initialize` in logues/ostack.cpp gives its reservation back and reports failure; the stack here starts as that code leaves its memory.
- Heaps.Heap.PushFrame: a frame is its list of references; its header and its other words are in `CallStacks.Stack.TryPushFrame`.
- StopAndCopy.Collector.TrackStackPointers: works on lists of references; `StackRoots.TrackStack` is the same walk on stack memory.
- Dispatch.SetVirtualMethod: a write past the table is dropped, where the code would overwrite the import table behind it; in chains whose virtual methods are routed (`Dispatch.RoutedIsGood`) there is no such write.
- Heaps.Heap.AllocateArray: lengths are natural numbers, because for a negative length the size request wraps around and no longer describes an array (`Objects.ArrayRequestHolds`).
- Object payloads in the collector are a section of references and a section of bytes; `Objects.FieldStored` says what bytes they are, the lowest byte of a number first.
- Frame slots of `Heaps.Heap` are lists of references per frame; `CallStacks` has them as words of stack memory, `CallStacks.NewFrameRoots` says which lists its pushes stand for, and `StackRoots.CopyLiveFromStacks` that a collection that walks the words redirects those lists.
- Native handles are numbers with a table from handle to object, not separately allocated cells.
- The order in which an unordered table is visited is any order.
- Unused counters: overridden methods in `compute_class_sizes`, the size hint of `insert_index`.
- Numbers too wide for the header field that stores them, except where a result above says exactly when they fit.
- Dispatch.DispatchExactlyWhenRouted: names are distinct within one class file, because for a file that declares a name twice the answer of the search depends on how equal entries are sorted.
- FieldReflection.FieldReached: names are distinct within the class file, for the same reason.
- A class's size and its alignment are one number in `ClassLoaders`; the offsets inside the block are not modelled.
