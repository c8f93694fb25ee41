# Verified core of the ant runtime

A Dafny model of the self-contained state machines in the C core of the ant JavaScript runtime,
with proofs of what they promise. `dafny verify dfyconfig.toml` checks the whole project.

Each component is modelled twice where the source changes things in place: once as functions on
values, about which the properties are proved, and once as a class or a method with loops that is
proved to compute those functions.

| component | source | modules |
|---|---|---|
| hidden-class shapes: ordered layouts, the shared transition tree, reference counts, collection, the inline-cache epoch | `src/shapes.c`, `include/shapes.h`, `src/ant.c` | `ShapeKeys`, `ShapeLayout`, `ShapeHeap`, `ShapeTree`, `ShapeSteps`, `ShapeGc`, `ShapeSharing`, `ShapeChange`, `ShapeRuns`, `ShapeReach`, `ShapeEpoch`, `ShapeStore` |
| UTF-8 and UTF-16: validation, streaming decode, JSON quoting and unescaping, cached UTF-16 queries, export | `src/utf8.c`, `src/escape.c`, `include/internal.h` | `Utf8`, `Utf8Decode`, `Utf8Json`, `Utf16Scan`, `Utf16Cache`, `Utf8Export` |
| executable bundle: writer, validating reader, import lookup | `src/vfs_bundle.c` | `BundleBytes`, `Bundle`, `BundleWriter`, `BundleRoundTrip`, `BundleResolve` |
| code arena with interning, mark and rewind | `src/runtime.c` | `CodeArena`, `CodeArenaRuns` |
| coroutine lifetime | `src/sugar.c` | `CoroutineLife`, `Coroutines` |
| storage paths and in-process file locks | `src/storage.c` | `StoragePath`, `StorageContext`, `StorageLocks` |
| watch supervisor and import graph | `src/watch.c` | `Watch`, `WatchGraph` |
| allocators | `include/arena.h`, `src/pool.c`, `src/gc/strings.c` | `FixedArena`, `Pool`, `PoolChain`, `PoolBlocks`, `Grid` |
| string hash | `include/hash.h` | `Hash` |

`Common` holds what several of them share.

How the model reads the source:

- A shape, coroutine, lock or block is named by a number; shapes and coroutines never reuse a number, blocks of the code arena are named by their place in the list.
- Bytes are numbers below 256 and bit operations on them are written as arithmetic; the packed string header is a 64-bit vector. Sizes are unbounded unless a wrap is part of the behaviour: the inline-cache epoch, the lock tokens, record fields of the bundle and the words of the hash have their width.
- Shapes use property keys and pairs of key and attributes directly; `ShapeKeys` shows when the packed words of the source tell them apart.
- What the system answers (whether a commit, a spawn, a timer or a signal succeeds, what fresh memory holds, in which order the library sort leaves equal edges, how threads interleave) is a parameter of the operation or of the run, so the theorems hold for every answer.
- A call that breaks the caller’s side of the protocol (releasing what is not owned, rewinding to a mark that is gone) is not a step of a run.

What the proofs found out about the code:

- A private shape that an inline cache keeps for a second object can end up held once with a recorded transition. The reference count then lets additions, attribute changes and deletions happen in place, and the transition is wrong afterwards. `ShapeReach.SharingReaches` gives the calls and `ShapeReach.SharingBreaks` the three failures; `ShapeSharing.SecondHolderLosesProperty` shows a property that is lost. `ShapeSharing.InPlaceAddExact`, `InPlaceAttrsExact` and `InPlaceDeleteExact` say exactly when such a change is safe, and `ShapeRuns.StepExact` says it for every step of a run.
- A guarded absence notices string keys only, so absences of symbols must not be cached (`ShapeEpoch.GuardSeesStringsOnly`).
- The downward walk of `utf16_index_seek` (`src/utf8.c:253-266`) never takes a step, because checkpoint k never lies beyond unit 64k.
- A bundle written with an ABI string of 48 bytes or more does not open with that same string (`BundleRoundTrip.OwnAbiOpens`).
- A storage root that ends with a slash refuses the absolute paths its own `ant_storage_file_path` returns, except the root (`StorageContext.FileOfResolves`, `StorageContext.SlashedRootRefuses`).
- The fixed arena is safe for elements of up to 512 KiB, more than its smallest growth of 64 KiB suggests, because it only grows once 2 MiB are committed; for larger elements `FixedArena.AllocInside` gives the exact condition and `FixedArena.LargeElementOverruns` a case that fails.
- The pool chain does not look at the capacity of a recycled block; `PoolChain.AllocExact` says exactly when that matters.
- Strings whose last character is cut short are read differently by different UTF-16 queries, and the floor query answers with an offset beyond them (`Utf16Scan.ModesAgree`, `Utf16Scan.FloorStaysInside`).
- Lock tokens repeat from 1 after 2^64 - 1 locks (`StorageLocks.FirstTokenAgain`).
- The supervisor ignores that its very first child could not be started (`src/watch.c:968`) and goes on watching.

## Model

| member | source | states |
|---|---|---|
| `ShapeLayout.AddKeyIsPut` | src/shapes.c:160-207 | adding a key is the update of an insertion-ordered map: a known key keeps its place and takes the new attributes, a new one goes last |
| `ShapeLayout.AddKeyWellFormed` | src/shapes.c:160-207 | the index holds exactly the live slots, the deleted count is exact and the last slot is live, after an add |
| `ShapeLayout.RemoveSlotIsWithout` | src/shapes.c:484-515 | removing a slot takes its key out of the ordered map and moves no other slot |
| `ShapeLayout.RemoveSlotWellFormed` | src/shapes.c:484-515 | index, deleted count and live last slot are right after a removal, tombstones at the end trimmed |
| `ShapeLayout.CompactKeepsOrder` | src/shapes.c:526-553 | compaction keeps every live property, its order and the set of indexed keys |
| `ShapeLayout.CompactWellFormed` | src/shapes.c:526-553 | a compacted layout is its live slots, with no tombstone and a matching index |
| `ShapeLayout.DeleteIsWithout` | src/shapes.c:484-553 | removal and the compaction that may follow it are together removal from the ordered map |
| `ShapeLayout.DeleteSparse` | src/shapes.c:521-553 | after any deletion the tombstones are fewer than max(32, live properties) |
| `ShapeLayout.AddKeySparse` | src/shapes.c:160-207 | adding keys never makes compaction due |
| `ShapeLayout.ReAddGoesLast` | include/shapes.h:56-65 | a deleted key that is added again goes behind every surviving property, as section 10.1.11.1 of ECMA-262 orders own keys |
| `ShapeLayout.RebuildIsIdentity` | src/shapes.c:115-142 | rebuilding the index of a well-formed layout gives the index it already has |
| `ShapeHeap.EpochAfter` | include/shapes.h:88-91 | the 32-bit epoch counter is never zero |
| `ShapeHeap.ReleaseFrame` | src/shapes.c:378-417 | releasing a shape, and recursively its children, changes the layout of no surviving shape |
| `ShapeTree.ReleaseKeeps` | src/shapes.c:378-417 | a release consumes exactly one reference: counts still equal owners plus parent edge plus root, every edge still adds its key to its parent |
| `ShapeTree.RetainKeeps` | src/shapes.c:373-376 | a retain accounts for exactly one more owner |
| `ShapeTree.RecordKeeps` | src/shapes.c:216-231 | recording a transition adds exactly one edge, parent plus key gives the child, and the counts follow |
| `ShapeTree.RelayoutKeeps` | src/shapes.c:160-207 | changing a layout in place is sound for a shape with neither parent nor children |
| `ShapeSteps.FollowKeeps` | src/shapes.c:237-277 | taking a recorded transition moves one reference and changes no layout |
| `ShapeSteps.ExtendKeeps` | src/shapes.c:237-277 | a first transition makes a shared child that is the parent plus the property and changes nothing else |
| `ShapeSteps.BranchKeeps` | src/shapes.c:237-277 | moving to a private copy leaves every other shape, edge and count as it was |
| `ShapeSteps.AddTrKeeps` | src/shapes.c:237-319 | adding with transitions gives the object its old layout plus the property, leaves every other owner’s layout alone and keeps the tree sound |
| `ShapeChange.AddKeeps` | src/shapes.c:237-319 | an allowed addition moves the caller to its old layout plus the property and changes no layout a transition depends on |
| `ShapeChange.UniqueKeeps` | src/ant.c:353-363 | making a shape unique gives the caller a shape of the same layout held once and changes no layout |
| `ShapeChange.AttrsKeep` | src/shapes.c:567-581 | an allowed attribute change does the same for the attributes of one key |
| `ShapeChange.DeleteKeeps` | src/ant.c:365-388 | an allowed deletion does the same for one key less |
| `ShapeChange.AdoptKeeps` | src/silver/ops/literals.h:79-90 | handing a reference on changes no layout and keeps the counts |
| `ShapeGc.PruneKeeps` | src/shapes.c:430-446 | pruning below a shape keeps counts, edges and every layout |
| `ShapeGc.MarkKeeps` | src/shapes.c:424-428 | marking reaches the shape and touches marks only |
| `ShapeGc.SweepKeeps` | src/shapes.c:448-455 | a sweep keeps the tree sound and reports truthfully whether it freed anything |
| `ShapeGc.CollectKeeps` | src/shapes.c:419-455 | a collection, whatever it marks, keeps every held shape, every layout and the tree sound; if all held shapes are marked, shapes outside the tree stay unshared; the inline-cache epoch moves unless the tree is untouched |
| `ShapeRuns.StepFaithful` | src/shapes.c:209-455 | a step whose in-place change is allowed gives every reference, held or given up, exactly the property list that separate ordered lists would have, keeps the tree sound, and changes no shape of the tree nor any that a transition depends on |
| `ShapeRuns.StepExact` | src/ant.c:353-388 | a step leaves a sound tree if and only if the reference count, the recorded transitions and the last slot of the shape it changes allow it |
| `ShapeRuns.RunRefinesPlan` | src/silver/ops/property.h:940-1017 | in every run of objects, inline caches, literal sites and collections whose in-place changes are allowed, all references show the lists that separate ordered lists would show, and exactly the references not given up are held |
| `ShapeRuns.PlainRunsAreSafe` | src/shapes.c:209-455 | in runs where only objects hold shapes every in-place change is allowed |
| `ShapeRuns.RunFollowsHistory` | src/shapes.c:209-455 | in every run of objects alone: an object is held if and only if it was made and not dropped, its ordered properties are those of its own history, and no step changes the layout of a shape with transitions |
| `ShapeReach.SharingReaches` | src/silver/ops/literals.h:63-90 | an inline cache that keeps a shape for a second object leads, by seven ordinary calls, to an object alone on a shape with a recorded transition |
| `ShapeReach.SharingBreaks` | src/ant.c:353-388 | there adding another key, changing attributes and deleting each leave a tree that is not sound |
| `ShapeEpoch.ApplySteady` | src/shapes.c:81-89 | an operation that does not move the epoch changes a shape only by adding a key no guarded absence is about |
| `ShapeEpoch.CachedLookupStaysRight` | src/shapes.c:160-207 | a cached lookup, of a slot or of a guarded absence, still gives the current answer whenever the epoch number is unchanged, after any operations |
| `ShapeEpoch.GuardSeesStringsOnly` | src/shapes.c:472-474 | a guarded absence notices the addition of its key exactly when the key is a string |
| `ShapeSharing.InPlaceAddExact` | src/shapes.c:233-277 | adding in place keeps the tree sound if and only if every recorded transition adds that same key or the addition changes nothing |
| `ShapeSharing.RelaidExact` | src/shapes.c:160-207 | changing the layout of a shape outside the tree keeps the tree sound if and only if its recorded transitions survive the change |
| `ShapeSharing.InPlaceAttrsExact` | src/ant.c:353-363 | a shape held once is changed in place, and the tree stays sound if and only if every recorded transition adds that same key or the attributes stay the same |
| `ShapeSharing.InPlaceDeleteExact` | src/ant.c:365-388 | a shape held once is changed in place, and the tree stays sound if and only if it has no transitions, or only transitions for the deleted key while that key was the last slot |
| `ShapeSharing.SecondHolderLosesProperty` | src/shapes.c:369-376 | a private shape retained a second time leads to a transition whose child misses a property the parent has |
| `ShapeStore.Table.Add` | src/shapes.c:160-207 | the slots, index and returned slot after an add are those of the ordered-map model |
| `ShapeStore.Table.Remove` | src/shapes.c:484-515 | the tombstone, the trimmed tail and the index are those of the model; the result says whether a live slot was removed |
| `ShapeStore.Table.RebuildIndex` | src/shapes.c:115-142 | the loop fills the index with exactly the live slots |
| `ShapeStore.Table.Squeeze` | src/shapes.c:526-553 | the live slots slide over the tombstones in order and the index follows each of them |
| `ShapeStore.Store.Release` | src/shapes.c:378-417 | the recursive release frees exactly what the model frees |
| `ShapeStore.Store.Mark` | src/shapes.c:424-428 | the walk up the parents stops at a marked one |
| `ShapeStore.Store.Prune` | src/shapes.c:430-446 | the recursive pruning agrees with the model, result included |
| `ShapeStore.Store.Sweep` | src/shapes.c:448-455 | the loop over the roots agrees with the model |
| `ShapeStore.Store.Add` | src/shapes.c:237-319 | all branches of adding with transitions agree with the model |
| `ShapeKeys.KeysDistinct` | src/shapes.c:96-102 | the words of interned strings and symbols are distinct for distinct keys below 2^63 |
| `ShapeKeys.ChildKeysDistinct` | src/shapes.c:104-106 | below 2^56 two transitions share a word exactly when key and attributes agree |
| `ShapeKeys.HighKeysCollide` | src/shapes.c:104-106 | without that bound, for every key and any two different attributes another key has a transition with the same word |
| `Utf8.CharIsEncoding` | src/utf8.c:536-568 | the bytes recognised at the front are exactly the encoding of the scalar value read from them (section 4 of RFC 3629) |
| `Utf8.EncodingIsChar` | src/utf8.c:536-568 | every encoded scalar value is recognised again, whatever follows |
| `Utf8.ValidIffEncoded` | src/utf8.c:536-568 | a string is valid exactly when it is a concatenation of encoded scalar values |
| `Utf8.ValidateBytes` | src/utf8.c:536-568 | the validator accepts exactly the valid strings |
| `Utf8Decode.Resume` | src/utf8.c:876-959 | decoding a prefix, keeping the pending bytes and going on is decoding the whole |
| `Utf8Decode.ChunksDoNotMatter` | src/utf8.c:876-959 | however a stream is cut into chunks, the output is that of one call on the whole |
| `Utf8Decode.DecodeBounds` | src/utf8.c:876-959 | the output is valid UTF-8, at most three bytes per input byte, and at most three bytes stay pending |
| `Utf8Decode.FatalIffInvalid` | src/utf8.c:876-959 | a fatal non-streaming decode succeeds exactly on the strings the validator accepts |
| `Utf8Decode.ValidPassesThrough` | src/utf8.c:876-959 | valid input comes out unchanged but for one leading byte order mark |
| `Utf8Decode.DecodeBytes` | src/utf8.c:876-959 | the jump-table loop computes the decoder of section 8.1.1 of the WHATWG Encoding Standard |
| `Utf8Decode.Next` | src/utf8.c:876-959 | one turn of that loop |
| `Utf8Json.BodyClean` | src/utf8.c:377-448 | for all bytes, the quoted body has no raw control byte and no bare quote, and no escaped high surrogate precedes an escaped low one (section 7 of RFC 8259) |
| `Utf8Json.QuoteRoundTrip` | src/escape.c:26-101 | unescaping what was quoted gives back every well-formed WTF-8 string with adjacent surrogate pairs joined |
| `Utf8Json.QuotedIsStrict` | include/escape.h:20-23 | whatever was quoted has no octal escape, so strict mode accepts it |
| `Utf8Json.JoinedScalars` | src/utf8.c:377-448 | valid UTF-8 comes back unchanged |
| `Utf8Json.JsonQuote` | src/utf8.c:377-448 | the quoting loop writes the quoted form |
| `Utf8Json.BracedEscape` | src/escape.c:26-38 | the digit loop of a braced escape |
| `Utf8Json.UnescapeToken` | src/silver/lexer.c:82-98 | the lexer’s loop over a string token undoes the escapes and refuses exactly the tokens with an octal escape in strict mode |
| `Utf16Scan.SeekMeans` | src/utf8.c:283-301 | a scan stops on the unit asked for, one past it when that unit splits a pair, or at the end |
| `Utf16Scan.SeekFloorMeans` | src/utf8.c:726-750 | the floor scan stops at the last character that begins at or before the unit |
| `Utf16Scan.ModesAgree` | src/utf8.c:82-143 | scanning with and without decoding moves alike through a string if and only if its last character is complete |
| `Utf16Scan.FloorStaysInside` | src/utf8.c:726-750 | the floor query answers with an offset in the string, for every index, if and only if the last character is complete |
| `Utf16Scan.CountIsLength` | src/utf8.c:526-534 | the length by lead bytes is the number of code units if and only if the last character is complete, and at most one more than the bytes |
| `Utf16Scan.ResumeSeek` | src/utf8.c:55-73 | a scan may resume at any boundary it would pass |
| `Utf16Cache.Strings.Sweep` | src/utf8.c:30-34 | a sweep that frees strings and reuses their addresses makes no cached position wrong |
| `Utf16Cache.Strings.OpenAtUnit` | src/utf8.c:36-63 | a resumed cursor is a true boundary at or before the target |
| `Utf16Cache.Strings.Build` | src/utf8.c:183-218 | checkpoint k is a character boundary at unit 64k or 64k-1, and the point array never overflows |
| `Utf16Cache.Strings.Checkpoints` | src/utf8.c:220-251 | the eight-way cache returns only checkpoints of this very string |
| `Utf16Cache.Strings.SeekPoint` | src/utf8.c:253-266 | seeking through checkpoints stays between the cursor and the target |
| `Utf16Cache.Strings.OpenIndexed` | src/utf8.c:268-281 | a cursor opened through the index is a true boundary at or before the target |
| `Utf16Cache.Strings.IndexToByteOffset` | src/utf8.c:688-724 | through every cache the answer is that of a scan from the start |
| `Utf16Cache.Strings.IndexToByteOffsetFloor` | src/utf8.c:726-750 | through every cache the answer is that of a floor scan from the start |
| `Utf16Cache.Strings.ByteOffsetToUtf16` | src/utf8.c:816-836 | the units before a byte offset, as counted from the start |
| `Utf16Cache.Strings.CodeUnitAt` | src/utf8.c:838-874 | the code unit at an index of the whole string’s UTF-16 form, or none |
| `Utf16Cache.Strings.CodePointAt` | src/utf8.c:961-992 | the code point that begins at a unit, the low surrogate inside a pair, or none |
| `Utf16Cache.Strings.RangeToByteRange` | src/utf8.c:752-814 | prefix surrogate, units of the byte range and suffix surrogate are together the code-unit slice, pairs cut at either end included |
| `Utf16Cache.CutFront` | src/utf8.c:752-814 | the front of a range, with the low surrogate it cuts off |
| `Utf16Cache.CutBack` | src/utf8.c:752-814 | the back of a range, with the high surrogate it cuts off |
| `Utf8Export.ExportValid` | src/utf8.c:587-650 | whatever the bytes and the room, the export is valid UTF-8 and fits |
| `Utf8Export.ExportWhole` | src/utf8.c:652-662 | with enough room the greedy export is the whole export, at most three bytes per byte |
| `Utf8Export.FastIsGreedy` | src/utf8.c:664-686 | on valid strings the truncating copy equals the greedy export, bytes and units, for every room |
| `Utf8Export.ValidExportsItself` | src/utf8.c:587-650 | a valid string exports as itself |
| `Utf8Export.Utf16Strlen` | src/utf8.c:526-534 | for any bytes the length by lead bytes, which is the number of code units if and only if the last character is complete |
| `Utf8Export.ExportGreedy` | src/utf8.c:587-650 | the loop that pairs or replaces surrogates computes the greedy export |
| `Utf8Export.FlatString.RememberLength` | include/internal.h:1018-1021 | remembering the right length keeps every claim of the header right, the length included |
| `Utf8Export.FlatString.Utf16Length` | src/ant.c:5041-5058 | in every state of the header the answer is the length in code units |
| `Utf8Export.FlatString.IsAscii` | include/internal.h:1028-1036 | the memoised answer is right in every state of the header |
| `Utf8Export.FlatString.IsValidUtf8` | include/internal.h:1038-1051 | the memoised answer is right in every state of the header |
| `Utf8Export.FlatString.ExportLength` | include/internal.h:1053-1061 | in every state the length is the one an unlimited export writes |
| `Utf8Export.FlatString.ExportInto` | src/utf8.c:664-686 | both paths give the greedy export |
| `Utf8Export.DetectAscii` | include/internal.h:985-991 | the loop tells ASCII from the rest |
| `BundleBytes.TableRow` | src/vfs_bundle.c:320-338 | every row of a record table is read back |
| `BundleBytes.StrTabReads` | src/vfs_bundle.c:77-91 | every string added to the table is read back at its offset, and the table ends with a zero |
| `BundleWriter.AddKeys` | src/vfs_bundle.c:128-134 | the loop over the keys records the offsets they land at |
| `BundleWriter.AddEdges` | src/vfs_bundle.c:136-145 | the loop over the edges, refusing exactly indices out of range |
| `BundleWriter.PlaceData` | src/vfs_bundle.c:162-168 | the data cursor gives each module its aligned offset and ends at the payload size |
| `BundleWriter.Prepare` | src/vfs_bundle.c:116-168 | the writer refuses exactly the builds that are not writable |
| `BundleRoundTrip.Layout` | src/vfs_bundle.c:150-184 | the payload part by part: header, module table, edge table, strings, data |
| `BundleRoundTrip.ParseReads` | src/vfs_bundle.c:282-341 | reading a written payload passes every check and gives the build back |
| `BundleRoundTrip.NoOverlap` | src/vfs_bundle.c:206-215 | in files below 2^56 bytes no second footer begins inside the real one |
| `BundleRoundTrip.FooterFound` | src/vfs_bundle.c:219-250 | the written footer is found if and only if the tail after it fits the scanned window and no valid footer begins later |
| `BundleRoundTrip.HarmlessTail` | src/vfs_bundle.c:219-250 | without a tail nothing hides a bundle; below 2^56 bytes only a footer that begins in the tail does |
| `BundleRoundTrip.OpenOfWrite` | src/vfs_bundle.c:252-341 | writing after any host bytes and opening gives the same entry, modules, data and edges, with a harmless tail; a different expected ABI string is reported |
| `BundleRoundTrip.OwnAbiOpens` | src/vfs_bundle.c:151-152 | a bundle opens with the writer’s own ABI string if and only if that string has at most 47 bytes |
| `BundleRoundTrip.OpenedIsUsable` | src/vfs_bundle.c:252-347 | for any file, what opens has every index and string reference in range, every key a terminated string of its table and every module’s data in the file with a zero after it; the missing-trailer answer comes exactly when no valid footer is in the window |
| `BundleResolve.FindKey` | src/vfs_bundle.c:359-364 | the first module with the key |
| `BundleResolve.LowerBound` | src/vfs_bundle.c:380-389 | the binary search splits the sorted edges at the pair |
| `BundleResolve.ScanRun` | src/vfs_bundle.c:391-399 | the walk over the matching run prefers the same kind of import |
| `BundleResolve.Resolve` | src/vfs_bundle.c:375-400 | a matching edge of the same kind if there is one, of the other kind otherwise, nothing if none matches |
| `BundleResolve.AnswersAreMeant` | src/vfs_bundle.c:375-400 | with distinct edges the answer equals a linear search of the edges as they were built |
| `BundleResolve.ImportsSurvive` | src/vfs_bundle.c:116-400 | written, opened and looked up, every import leads where the build says |
| `BundleResolve.ScanFooter` | src/vfs_bundle.c:219-250 | the loop over the window computes the search |
| `CodeArena.AllocKeeps` | src/runtime.c:169-198 | interning keeps every entry on a live terminated copy of its key and everything allocated before where it is |
| `CodeArena.BumpKeeps` | src/runtime.c:94-120 | a bump returns aligned bytes beyond everything in use |
| `CodeArena.RewindRestores` | src/runtime.c:212-244 | a rewind restores blocks, fills, bytes in use and the intern table of the moment of the mark |
| `CodeArena.PlainAgrees` | src/runtime.c:136-167 | the plain rewind agrees with it where nothing is interned |
| `CodeArena.Code.constructor` | src/runtime.c:46-51 | an empty arena |
| `CodeArena.Code.AllocCode` | src/runtime.c:169-198 | the copy and the table entry are those of the model |
| `CodeArena.Code.BumpBytes` | src/runtime.c:94-120 | the aligned bump is that of the model |
| `CodeArena.Code.Prune` | src/runtime.c:53-69 | the walk over the table deletes exactly the entries in the range |
| `CodeArena.Code.RewindTo` | src/runtime.c:212-244 | the loops restore the state the mark was taken in |
| `CodeArenaRuns.StepKeeps` | src/runtime.c:94-244 | every call keeps all marks on the stack rewindable |
| `CodeArenaRuns.EveryRun` | src/runtime.c:53-244 | in every state: entries point at live bytes equal to their keys, live allocations are in use and disjoint, and each mark on the stack restores its moment |
| `CodeArenaRuns.NoTrace` | src/runtime.c:208-244 | what happens between a mark and the rewind to it, nested marks and rewinds included, leaves no trace |
| `CoroutineLife.StepKeeps` | src/sugar.c:39-72 | every balanced call keeps each coroutine live, retired or destroyed, in exactly one place |
| `CoroutineLife.DeactivateKeeps` | src/sugar.c:151-160 | leaving the chain and dropping the active hold together keep the invariant |
| `CoroutineLife.EveryRun` | src/sugar.c:10-160 | in every balanced run nothing is both active and retired, nothing is destroyed twice or while still kept |
| `CoroutineLife.NothingFreedInside` | src/sugar.c:44-53 | while the VM executes, the last reference going retires and never frees |
| `CoroutineLife.KeptWhileHeld` | src/sugar.c:55-72 | a coroutine goes only with its last owner and hold, by a call on it |
| `Coroutines.PopLinks` | src/sugar.c:151-160 | unlinking from any position leaves a well-formed doubly linked chain and every other field alone |
| `Coroutines.Runtime.New` | src/sugar.c:39-42 | a new coroutine has one owner |
| `Coroutines.Runtime.Retain` | src/sugar.c:39-42 | one owner more |
| `Coroutines.Runtime.Release` | src/sugar.c:55-60 | one owner less; nothing at all on a retired coroutine |
| `Coroutines.Runtime.ReleaseRef` | src/sugar.c:44-60 | the count reaches zero exactly with the last reason, then the coroutine is retired or freed |
| `Coroutines.Runtime.HoldBit` | src/sugar.c:62-66 | a bit counts once however often it is set |
| `Coroutines.Runtime.UnholdBit` | src/sugar.c:68-72 | a cleared bit gives its reference back |
| `Coroutines.Runtime.Hold` | src/sugar.c:62-66 | holding for a generator or an await keeps what every run keeps |
| `Coroutines.Runtime.ClearAwait` | src/sugar.c:121-133 | registration and hold end together |
| `Coroutines.Runtime.FreeCoroutine` | src/sugar.c:135-139 | await and reference go together |
| `Coroutines.Runtime.Activate` | src/sugar.c:141-149 | the coroutine is first on the chain and held for it |
| `Coroutines.Runtime.Deactivate` | src/sugar.c:151-160 | it is off the chain, wherever it was, and no longer held for it |
| `Coroutines.Runtime.ReapRetired` | src/sugar.c:107-119 | each retired coroutine is freed once and the list is empty |
| `Coroutines.Runtime.UnholdGenerator` | src/modules/generator.c:181-188 | a generator lets go of its coroutine |
| `Coroutines.Runtime.RegisterAwait` | src/ant.c:14954-14956 | registering an await sets the flag and the hold |
| `StoragePath.NormalizeNormal` | src/storage.c:83-104 | what is accepted becomes clean components joined by single slashes: the accepted ones without dots |
| `StoragePath.NormalizeIdempotent` | src/storage.c:83-104 | normalising is idempotent |
| `StoragePath.CheckSafe` | src/storage.c:64-81 | the loops accept exactly the safe relative paths |
| `StoragePath.NormalizePath` | src/storage.c:83-104 | the loop writes the normal form, or refuses |
| `StorageContext.WithBaseNormal` | src/storage.c:109-125 | base and normal path together are normal, component after component |
| `StorageContext.InsideIsBelow` | src/storage.c:127-137 | the character test for the base is containment of components, in both directions |
| `StorageContext.ResolvedInside` | src/storage.c:344-401 | every accepted path, in every spelling, resolves to a normal path at or below the base |
| `StorageContext.ChildMade` | src/storage.c:187-233 | a child context has a normal base below its parent’s |
| `StorageContext.ChildResolves` | src/storage.c:187-233 | resolving an accepted relative path in a child is resolving it below the child’s path in the parent |
| `StorageContext.FileOfResolves` | src/storage.c:403-414 | the file path of an accepted path resolves to the same place if and only if the absolute root does not end with a slash or the path is the root |
| `StorageContext.SlashedRootRefuses` | src/storage.c:379-381 | a root that ends with a slash refuses the plain absolute paths below it |
| `StorageLocks.EveryRun` | src/storage.c:955-1037 | in every interleaving: one holder per key, sleepers only on held keys, and distinct nonzero tokens until all values of the counter were given out |
| `StorageLocks.RunFresh` | src/storage.c:999-1001 | tokens stay distinct and nonzero until all values of the counter were given out, however many steps were taken |
| `StorageLocks.FirstTokenAgain` | src/storage.c:999-1001 | the lock after that has token 1 again: tokens stay distinct if and only if the first lock is no longer held |
| `StorageLocks.HeldUntilUnlocked` | src/storage.c:1015-1037 | an entry goes exactly with its own token, and a key is given out only when free |
| `StorageLocks.KeyIsPlace` | src/storage.c:644-665 | for contexts with one root two paths have the same key exactly when they resolve to the same place |
| `StorageLocks.OneHolderPerPlace` | src/storage.c:955-1037 | in every interleaving every held lock was asked for, and no two held locks stand for paths that resolve to one place below one root |
| `StorageLocks.Table.TryLock` | src/storage.c:979-1008 | one pass of the waiting loop: busy, or the entry with a nonzero token |
| `StorageLocks.Table.Release` | src/storage.c:1015-1037 | the cursor loop removes exactly the entry with the token |
| `WatchGraph.BuildGraph` | src/watch.c:559-571 | the worklist ends, cyclic graphs included, with the duplicate-free least set that holds the entry and is closed under imports |
| `WatchGraph.Scan` | src/watch.c:511-557 | scanning one file adds its imports and nothing else |
| `WatchGraph.AnswerUnique` | src/watch.c:559-571 | the answer is determined as a set |
| `Watch.StepKeeps` | src/watch.c:625-892 | every event keeps: one child at most, the kill timer only against a live child to be replaced or stopped, a pending restart only while a child lives |
| `Watch.StopIsFinal` | src/watch.c:844-862 | after a shutdown request no child is started and the exit code stands |
| `Watch.StopSetsCode` | src/watch.c:844-862 | the first shutdown request sets the exit code |
| `Watch.RestartLasts` | src/watch.c:864-881 | a pending restart lasts until exactly one child is started or a shutdown is requested |
| `Watch.SpawnsAlone` | src/watch.c:771-817 | a child is started only when none is alive, one at a time |
| `Watch.EveryRun` | src/watch.c:625-983 | every run of the supervisor from any set-up and with any answers from the system |
| `Watch.Supervisor.RequestShutdown` | src/watch.c:844-862 | shutting down, once |
| `Watch.Supervisor.TrySpawnChild` | src/watch.c:800-817 | refreshing the watchers and starting a child, or shutting down |
| `Watch.Supervisor.RequestRestart` | src/watch.c:864-881 | terminating the child first if there is one |
| `Watch.Supervisor.FileEvent` | src/watch.c:625-660 | debouncing a change |
| `Watch.Supervisor.ChildExit` | src/watch.c:751-769 | restart, shutdown or exit code |
| `Watch.Supervisor.Handle` | src/watch.c:625-892 | every handler is the step of the model and keeps what every run keeps |
| `FixedArena.AllocKeeps` | include/arena.h:232-257 | an allocation returns an element that was not live, or nothing exactly when the reserve is used up or the commit fails |
| `FixedArena.FreeKeeps` | include/arena.h:285-290 | a freed element is free and no longer counted |
| `FixedArena.ElementsApart` | include/arena.h:232-257 | live elements do not overlap and lie below the watermark |
| `FixedArena.EveryRun` | include/arena.h:199-297 | in every run, for elements of any size, live and free elements are exactly the multiples of the element size below the watermark; these are committed after every step if and only if no allocation needed more than one growth, as is always so up to 512 KiB |
| `FixedArena.AllocInside` | include/arena.h:241-250 | an allocation stays in the committed part if and only if one growth meets its need |
| `FixedArena.LargeElementOverruns` | include/arena.h:241-250 | an arena of 3 MiB elements carves its first element past the committed part |
| `FixedArena.Fixed.constructor` | include/arena.h:199-220 | the initial commit |
| `FixedArena.Fixed.AllocElem` | include/arena.h:232-257 | free list first, then carving; the count is exact |
| `FixedArena.Fixed.FreeElem` | include/arena.h:285-290 | the intrusive list gets the element in front |
| `FixedArena.Fixed.Has` | include/arena.h:292-297 | the membership test answers for exactly the elements handed out |
| `Pool.SizeClass` | src/pool.c:21-26 | the smallest class that is large enough, none beyond 16384 |
| `Pool.AllocKeeps` | src/pool.c:182-229 | a bucket returns a slot that was not live, from the free list, the current block, a recycled or a new one |
| `Pool.SweepKeeps` | src/gc/strings.c:250-284 | in whatever order the blocks are visited, a sweep keeps exactly the blocks with a marked slot, frees every unmarked slot in them once, keeps at most two recycled blocks and leaves the bucket sound |
| `Pool.Slots.SweepSlots` | src/gc/strings.c:250-320 | the loops over blocks and slots are that sweep |
| `Pool.Slots.FreeSlots` | src/gc/strings.c:274-284 | the loop over the slots of a block pushes its unmarked slots |
| `Pool.EveryRun` | src/pool.c:182-229 | in every run of allocations and sweeps live slots are aligned, hold their class, lie within their block and do not overlap |
| `Pool.Slots.TakeSlot` | src/pool.c:182-229 | the fast path is that of the model |
| `PoolChain.StaysWithin` | src/pool.c:257-303 | a chain request stays within its block if and only if it is not served from a recycled block that is too small |
| `PoolChain.AllocKeeps` | src/pool.c:257-303 | a request for which no recycled block too small is taken gets aligned bytes within a block, apart from all live ones |
| `PoolChain.AllocExact` | src/pool.c:257-303 | a request of any size keeps the chain right if and only if no recycled block too small is taken for it |
| `PoolChain.EveryRun` | src/pool.c:257-303 | in every run of requests of any size with blocks recycled in between, live regions lie apart and within their blocks after every step if and only if no request takes a recycled block too small for it, as is always so for requests up to a standard block |
| `PoolChain.Blocks.Take` | src/pool.c:257-303 | the chain allocation is that of the model |
| `PoolChain.Blocks.MakeRoom` | src/pool.c:267-297 | the choice of the block |
| `Hash.LimbsExact` | include/hash.h:42-51 | the 32-bit-limb multiply computes exactly the low and high words of the 128-bit product |
| `Hash.SameOnAllTargets` | include/hash.h:97-149 | the hash does not depend on which multiply the target has |
| `Hash.ComputeHash` | include/hash.h:97-149 | for every length the reads stay inside the key and reach every byte |
| `Hash.ReadRounds` | include/hash.h:124-131 | the 48-byte rounds read everything before their position |

## Left out

- Allocation failure in every component, and truncation of sizes on 32-bit targets.
- The system calls and libraries themselves: memory mapping, file access, libuv, pthread primitives, qsort, utf8proc, hash tables; each is a parameter, an assumed step, or a small specification function.
- ShapeEpoch.CachedLookupStaysRight: assumes fewer than 2^32 - 1 epoch bumps between caching and use, because the 32-bit counter then repeats; compaction is modelled directly after the removal that makes it due, as its callers do it.
- ShapeRuns.RunRefinesPlan: which references an inline cache takes and when is up to the run, not modelled from the cache code; getters and setters stored beside a property are not part of the slots, and the byte accounting of shapes is not modelled.
- Utf16Cache.Strings.IndexToByteOffset: like all UTF-16 queries through the caches, for strings whose last character is complete, which by `Utf16Scan.ModesAgree` is exactly where the queries agree on what a string is.
- Utf8Export.FlatString.Utf16Length: for strings of fewer than 2^56 - 1 bytes, since the header keeps 56 bits of the length.
- `utf8_char_len_at`, `utf8_strlen` and the Latin-1 conversions: only easy members.
- BundleRoundTrip.OpenOfWrite: for files whose size is a signed 64-bit number, NUL-free strings and a string table of at most 4 GiB, which is what the fields and the C strings of the source hold.
- Bundle: the file is the sequence of its bytes; seeking, short reads and writes, and the I/O and out-of-memory statuses are not modelled.
- CodeArenaRuns.EveryRun: what owners later store in bumped memory is not modelled; a rewind does not undo such writes to memory that is older than the mark.
- Coroutines: one runtime, no overflow of the 32-bit count; the activation, arguments and module context a coroutine frees are not modelled, nor are the linking sequences repeated in the generator module.
- `ant_storage_virtual_path`, the file operations of a storage context and the locks of the platform bridge.
- WatchGraph.BuildGraph: the scanner that finds import specifiers in a source text, and their resolution to files, are given as a map.
- Watch: the messages printed, clearing the screen and the statistics of watched files.
- FixedArena: the contents of elements, and so the zeroing that tells the two allocation functions apart, are not modelled.
- Large strings of the pool, statistics and destruction of pools.
- Hash.ComputeHash: words are read as little-endian; on a big-endian target the source reads them the other way round.
- Garbage collection outside shapes and string slots, promises, the VM, the parser, the JIT, the module loader, native tags, replacement templates, the command line, error rendering and everything else outside the files above.
