# Models of buildbox-common, verified

This project models the parts of buildbox-common that carry the most state and
arithmetic, and proves what they are for.

* **The streaming BLAKE3 hasher** (`Blake3*.dfy`, `Bits.dfy`). A reference
  definition hashes a byte sequence by recursion over the left-complete tree
  (sections 2.1, 2.4, 2.5 and 5.1.2 of the BLAKE3 paper, with the counter fixed
  at 0 in every compression, as the BLAKE3ZCC variant has it). The compression
  function is a parameter; `Blake3Laws.dfy` says in numbers what is computed
  from it and shows that the flags keep roots, parents and chunks apart. The
  implementation is a class with the partial-chunk buffer, the stack of chaining
  values and the wide subtree compressor, on arrays, and every operation is
  proved against the reference.
* **Digests** (`CasHash.dfy`): strings and files on top of the hasher.
* **Directory trees and their merge** (`Merklize.dfy`, `Messages.dfy`,
  `NestedDirectory.dfy`, `Flatten.dfy`, `MergeUtil.dfy`, `MergeTheorems.dfy`,
  `MergedResult.dfy`, `MergeRoundTrip.dfy`, `TreeOrder.dfy`, `StringOrder.dfy`).
  Serializing and hashing a Directory is one function parameter. A tree of
  messages is unfolded from the store by following digests; the unfolding exists
  for every store whose digests do not loop, and is unique.
* **Paths** (`Paths.dfy`, `PathText.dfy`, `FileUtils.dfy`, `PathJoins.dfy`,
  `PathExamples.dfy`, `StagedDirectory.dfy`): the index loops of the path
  functions against the meaning of a path as segments.
* **Transfers** (`Batches.dfy`, `Transfers.dfy`, `ResultMaps.dfy`,
  `Uploads.dfy`, `Download.dfy`): batching, downloads and uploads of many blobs,
  one download with retries. What servers answer is a parameter, so every claim
  is about every sequence of failures.
* **The file monitor** (`Monitor.dfy`, `MonitorThread.dfy`): a state machine of
  writer, stop request and thread; the thread's loop as a refinement of it, and
  what it delivers in every world.

`dafny verify dfyconfig.toml` checks everything.

## What the proofs found

* `chunk_state_reset` stores 0 instead of its counter argument
  (`blake3.cpp:25`). That is right for compression but the stack merge counts on
  the number. Both forms are modelled. With the argument stored, every split of
  every input gives the tree hash. As written, an update goes wrong if and only
  if it starts inside a chunk and does not fit in it; the merge loop then runs
  below the stack. Whether a run does that is decided by the lengths of its
  pieces. Whole strings and files read in full 64 KiB buffers never do;
  downloads do whenever a piece crosses the end of a chunk it did not start.
* Digest equality looks at `hash_other` and the size only
  (`buildboxcommon_protos.h:103-107`), and BLAKE3ZCC digests leave `hash_other`
  empty (`buildboxcommon_cashash.cpp:173-175`): two of them are equal exactly
  when the sizes are. A download therefore accepts any bytes of the right
  length, a merge lets files of equal length pass as the same and keeps the
  first tree's, and a stored tree can be read back only if no two different
  directories in it serialize to the same length. Downloads hand blobs out under
  `hash_other`, so the map of results keeps a single entry
  (`buildboxcommon_client.cpp:661-691`).
* A merge is not symmetric between kinds of nodes: a symlink entered over a file
  is ignored, a file entered over a symlink fails. A file entered over a
  directory fails too, unless both have one digest; a directory entered over a
  file merges, and with anything below it the result has both under one name.
  The order of two trees is without effect if and only if nothing differs at a
  shared path, or they collide in both orders.
* Merging with exactly one empty tree leaves by `std::out_of_range`, which the
  handler for collisions does not catch
  (`buildboxcommon_mergeutil.cpp:296-301`).
* With a batch limit below 256 the room computation wraps around and requests
  exceed the limit; with 256 or more they never do.
* `downloadBlobs` into an output map is documented to abort by an exception on
  an error (`buildboxcommon_client.cpp:726-728`). It does when a batch call or a
  stream fails. A failed response inside a batch is dropped silently, and so is
  a missing one: after a normal return everything arrived if and only if every
  batched digest has an accepted response. An upload that the server leaves out
  of its answer is not reported either.
* The monitor looks at the stop flag twice in one round. A stop between the two
  loses up to 100 bytes that were read; and after a stop the rest of a file that
  was complete all along may stay unread. The header promises that a file
  finished before the stop loses nothing; the exact states from which that is so
  are given for every guarantee on the length of reads.
* From a normalized working directory `makePathRelative` returns an absolute
  path, not a relative one, if and only if two slashes follow the directory in
  the path: `/a//b` seen from `/a` becomes `/b`. A `..` in the working directory
  is counted like a name, so the result then leads elsewhere.
* `joinPathSegmentsNoEscape` lets two kinds of escape through: upwards from a
  base that is itself made of `..` only, and, at the base `.`, an absolute path
  that is not forced to be relative. At `/` it refuses relative paths that go
  up, although they denote paths below it. Everywhere else it is exact.

## Model

| member | source | states |
|---|---|---|
| Blake3Hasher.Hasher.Update | buildbox-common/buildboxcommon/blake3.cpp:451-558 | appends its input to what was hashed before, for every split of the input; faults exactly when the reset is as written and the update both starts inside a chunk and does not fit in it; says how many chunks and bytes are where afterwards |
| Blake3Hasher.Hasher.Finalize | buildbox-common/buildboxcommon/blake3.cpp:560-607 | the digest is the recursive left-complete tree hash of everything hashed so far, whatever the sequence of updates; the state is unchanged |
| Blake3Hasher.Hasher.MergeCvStack | buildbox-common/buildboxcommon/blake3.cpp:400-409 | leaves one entry per set bit of the chunk count, and reaches below the stack exactly when it is given 0 for a non-empty stack |
| Blake3Hasher.Hasher.PushCv | buildbox-common/buildboxcommon/blake3.cpp:443-449 | merges lazily, then the new subtree lies on top; the stack array of 55 entries is never exceeded for fewer than 2^54 chunks |
| Blake3Hasher.Hasher.PushPair | buildbox-common/buildboxcommon/blake3.cpp:532-542 | the two halves of an aligned subtree go on one after the other and stay unmerged |
| Blake3Hasher.Hasher.AbsorbSubtree | buildbox-common/buildboxcommon/blake3.cpp:520-545 | one subtree taken from the input extends the data under the stack by exactly its bytes |
| Blake3Hasher.Hasher.AbsorbSubtrees | buildbox-common/buildboxcommon/blake3.cpp:499-546 | the loop over subtrees leaves at most one chunk; when it leaves nothing the top two entries are an unmerged pair |
| Blake3Hasher.Hasher.CompleteChunk | buildbox-common/buildboxcommon/blake3.cpp:473-484 | a completed chunk is pushed; the reset keeps the chunk count or, as written, loses it |
| Blake3Hasher.Hasher.HashFromBoundary | buildbox-common/buildboxcommon/blake3.cpp:486-557 | the rest of an update from an empty chunk state: fault exactly if the count was lost, else the input is appended |
| Blake3Hasher.TakeOne | buildbox-common/buildboxcommon/blake3.cpp:499-523 | a subtree length chosen by the shrink loop divides the count and keeps it below the stack capacity |
| Blake3Chunk.ChunkState.Reset | buildbox-common/buildboxcommon/blake3.cpp:22-29 | an empty chunk; the counter argument is stored or, as written, replaced by 0 |
| Blake3Chunk.ChunkState.FillBuf | buildbox-common/buildboxcommon/blake3.cpp:36-46 | takes what fits; the buffer is the bytes so far with a zero tail |
| Blake3Chunk.ChunkState.CompressBlocks | buildbox-common/buildboxcommon/blake3.cpp:130-137 | compresses all but the last block, advancing the chain of the chunk |
| Blake3Chunk.ChunkState.Update | buildbox-common/buildboxcommon/blake3.cpp:114-142 | fed in any pieces, the state is the one that belongs to the concatenated bytes |
| Blake3Chunk.ChunkState.CurrentOutput | buildbox-common/buildboxcommon/blake3.cpp:144-149 | the output node is that of the bytes fed so far |
| Blake3Chunk.HashOne | buildbox-common/buildboxcommon/blake3_portable.cpp:125-143 | the loop over blocks computes the chain with start flag first and end flag last |
| Blake3Chunk.BulkChunk | buildbox-common/buildboxcommon/blake3_portable.cpp:125-160 | over a full chunk the bulk path equals the streaming path |
| Blake3Chunk.BulkParent | buildbox-common/buildboxcommon/blake3.cpp:231-236 | over one block of two chaining values the bulk path is the parent compression |
| Blake3Layers.CondenseKeepsTree | buildbox-common/buildboxcommon/blake3.cpp:346-354 | a layer of parents with an odd carry keeps the tree above it, and with more than two values the two subtrees below its top |
| Blake3Layers.LeavesStandFor | buildbox-common/buildboxcommon/blake3.cpp:170-207 | the chunk chaining values of an input stand for its tree |
| Blake3Layers.HalvesStandFor | buildbox-common/buildboxcommon/blake3.cpp:280-321 | values for the two halves split at `left_len` concatenate to values for the whole |
| Blake3Wide.HashMany | buildbox-common/buildboxcommon/blake3_portable.cpp:145-160 | one output slot per input, nothing else written |
| Blake3Wide.CompressChunksParallel | buildbox-common/buildboxcommon/blake3.cpp:170-207 | writes the chaining value of every chunk, the partial one included, in order |
| Blake3Wide.CompressParentsParallel | buildbox-common/buildboxcommon/blake3.cpp:214-247 | writes the condensed layer, half as many rounded up |
| Blake3Wide.CompressSubtreeWide | buildbox-common/buildboxcommon/blake3.cpp:266-323 | for every power-of-two degree: at least 2 and at most max(degree, 2) values over one chunk, exactly that many for a large complete subtree, no slot outside written, and they stand for the tree of the input |
| Blake3Wide.CompressHalves | buildbox-common/buildboxcommon/blake3.cpp:290-309 | the left values exactly fill the slots before the right ones |
| Blake3Wide.CompressSubtreeToParentNode | buildbox-common/buildboxcommon/blake3.cpp:335-356 | returns the values of the two subtrees split at `left_len` |
| Blake3Spec.LeftLen | buildbox-common/buildboxcommon/blake3.cpp:156-164 | a power-of-two number of chunks, less than the input, at least half of it |
| Blake3Spec.JoinSubtrees | buildbox-common/buildboxcommon/blake3.cpp:400-409 | a complete subtree followed by at most as much again is one parent node of the tree |
| Blake3Laws.OneBlockHash | buildbox-common/buildboxcommon/blake3.cpp:81-112 | up to 64 bytes: one compression of the key and the zero-padded bytes with the flags 1, 2 and 8 |
| Blake3Laws.OneChunkHash | buildbox-common/buildboxcommon/blake3.cpp:81-112 | up to 1024 bytes: one compression of the last block over the chain of the others, with the flags 2 and 8 |
| Blake3Laws.ParentHash | buildbox-common/buildboxcommon/blake3.cpp:81-112 | over 1024 bytes: one compression of the key and the chaining values of the two parts, with the flags 4 and 8 at the root and 4 below it |
| Blake3Laws.NodeIs | buildbox-common/buildboxcommon/blake3.cpp:76-112 | hash and chaining values by a definition in plain numbers |
| Blake3Laws.EqualDigests | buildbox-common/buildboxcommon/blake3_impl.h:17-24 | as far as the compression function tells the calls for two messages apart, digests are equal if and only if the messages are |
| Blake3Laws.DigestIsNoChainingValue | buildbox-common/buildboxcommon/blake3_impl.h:17-24 | and then no digest of one is a value that occurs below the root of the other |
| Blake3Laws.DigestIsNoPart | buildbox-common/buildboxcommon/blake3_impl.h:17-24 | nor the value the other would have as a part of something longer |
| Blake3Stack.LazyPopCount | buildbox-common/buildboxcommon/blake3.cpp:386-409 | a lazily merged stack is longer than the number of set bits of the count exactly when its top two entries are to be merged |
| Blake3Stack.StrictPopCount | buildbox-common/buildboxcommon/blake3.cpp:396-401 | a fully merged stack has one entry per set bit of the count |
| Blake3Stack.MergeTopCvs | buildbox-common/buildboxcommon/blake3.cpp:402-408 | merging the top two entries gives the chaining value of the joined subtree |
| Blake3Stack.AlignedTop | buildbox-common/buildboxcommon/blake3.cpp:493-496 | if a power of two divides the count, no entry of the merged stack is smaller |
| Blake3Stack.PushHalf | buildbox-common/buildboxcommon/blake3.cpp:537-542 | the first half of an aligned subtree leaves the stack merged, the second does not |
| Blake3Stack.FoldTop | buildbox-common/buildboxcommon/blake3.cpp:599-605 | one roll-up step is the next node up in the tree of the data |
| Blake3Stack.FoldPair | buildbox-common/buildboxcommon/blake3.cpp:593-598 | with an empty chunk there are at least two entries, and the top two are the children of one node |
| Blake3Schedule.FitSubtree | buildbox-common/buildboxcommon/blake3.cpp:500-519 | the mask loop computes the specified subtree length |
| Blake3Schedule.SubtreeLenIsLargest | buildbox-common/buildboxcommon/blake3.cpp:502-519 | it is the largest power of two that fits the input and divides the count, never below a chunk |
| Blake3Schedule.PartialIsRemainder | buildbox-common/buildboxcommon/blake3.cpp:499-557 | what an update from an empty chunk leaves in the partial chunk, by arithmetic alone: nothing exactly when it ends on whole chunks, at least two, that make the count even |
| Bits.RoundDownToPowerOf2 | buildbox-common/buildboxcommon/blake3_impl.h:123-127 | the largest power of two not above its argument, 1 for 0 |
| Bits.PopCountLoop | buildbox-common/buildboxcommon/blake3_impl.h:110-121 | the fallback loop counts the set bits |
| Bits.MaskIsRemainder | buildbox-common/buildboxcommon/blake3.cpp:502-517 | masking with a power of two less one is the remainder |
| Bits.PopCountBound | buildbox-common/buildboxcommon/blake3.h:34-39 | a count below 2^k has at most k set bits |
| CasHash.Blake3DigestsCompareBySize | buildbox-common/buildboxcommon/buildboxcommon_protos.h:103-107 | two BLAKE3ZCC digests compare equal exactly when the sizes do |
| CasHash.DigestContext.Update | buildbox-common/buildboxcommon/buildboxcommon_cashash.cpp:138-153 | throws exactly after finalization; otherwise appends the piece or faults with the hasher |
| CasHash.DigestContext.FinalizeDigest | buildbox-common/buildboxcommon/buildboxcommon_cashash.cpp:155-180 | once: tree hash and length of all pieces; afterwards throws |
| CasHash.HashString | buildbox-common/buildboxcommon/buildboxcommon_cashash.cpp:92-97 | the digest of the string under either form of the reset: no other hash, its length, and its tree hash |
| CasHash.HashFile | buildbox-common/buildboxcommon/buildboxcommon_cashash.cpp:193-214 | for every way `read` may cut the file: no other hash, the length and the tree hash of its contents; a fault exactly when some update overruns, an exception exactly on a read error |
| CasHash.WholeDigestsTellApart | buildbox-common/buildboxcommon/buildboxcommon_protos.h:103-107 | with all of their fields two digests are equal only for equal contents, as far as the compression function tells the calls for them apart |
| CasHash.IntendedNeverFaults | buildbox-common/buildboxcommon/blake3.cpp:22-29 | with the counter stored no split of any input faults |
| CasHash.AsWrittenFaults | buildbox-common/buildboxcommon/blake3.cpp:465-484 | as written, a run faults if and only if some update starts inside a chunk and crosses its end |
| CasHash.AsWrittenFaultsByLength | buildbox-common/buildboxcommon/blake3.cpp:465-557 | the same over the lengths of the pieces only, without mention of the hasher: the leftover of each length is a remainder, and a run faults if and only if some length crosses the end of a started chunk |
| CasHash.AsWrittenFaultsOnSplitInput | buildbox-common/buildboxcommon/blake3.cpp:475-480 | one byte followed by 1024 bytes is such a run |
| CasHash.FullReadsNeverFault | buildbox-common/buildboxcommon/buildboxcommon_cashash.cpp:197-206 | full 64 KiB reads until the end of the file never fault, for every length |
| CasHash.HashFileAndString | buildbox-common/buildboxcommon/buildboxcommon_cashash.cpp:92-112 | with the hasher as written, hashing a file equals hashing its contents as one string |
| FileUtils.NormalizePath | buildbox-common/buildboxcommon/buildboxcommon_fileutils.cpp:724-769 | the segment loop computes the normal form |
| FileUtils.NormalizeCanonical | buildbox-common/buildboxcommon/buildboxcommon_fileutils.cpp:724-769 | no empty or `.` segment but a lone `.`, `..` only as a leading run of a relative path; idempotent, same meaning, never empty |
| Paths.RunRelative | buildbox-common/buildboxcommon/buildboxcommon_fileutils.cpp:738-747 | resolving a relative path first changes nothing for the path it is appended to |
| Paths.SegmentsConcatRelative | buildbox-common/buildboxcommon/buildboxcommon_fileutils.cpp:647-654 | a concatenation with a relative path denotes the second one run from the first |
| FileUtils.MatchPrefix | buildbox-common/buildboxcommon/buildboxcommon_fileutils.cpp:567-593 | the matching loop ends with one of the early results or at the point where the paths part |
| FileUtils.CountSegments | buildbox-common/buildboxcommon/buildboxcommon_fileutils.cpp:607-614 | counts the segments of `cwd` from a position on |
| FileUtils.ReplacePrefix | buildbox-common/buildboxcommon/buildboxcommon_fileutils.cpp:616-622 | the in-place edit yields that many `..` joined by slashes and the rest of the path |
| FileUtils.MakePathRelative | buildbox-common/buildboxcommon/buildboxcommon_fileutils.cpp:552-623 | between any two absolute paths: exactly the way along the segments of both as they are written; between normalized ones the shortest relative path; other inputs unmodified or refused |
| PathText.RelativeLeadsBack | buildbox-common/buildboxcommon/buildboxcommon_fileutils.cpp:595-622 | following the shortest relative path from `cwd` leads to the path |
| PathText.RelativeIsShortest | buildbox-common/buildboxcommon/buildboxcommon_fileutils.cpp:595-622 | no list of segments that leads there has fewer |
| FileUtils.RelativeThenAbsolute | buildbox-common/buildboxcommon/buildboxcommon_fileutils.cpp:527-623 | for all normalized absolute paths, absolute of relative is the identity |
| FileUtils.AbsoluteIs | buildbox-common/buildboxcommon/buildboxcommon_fileutils.cpp:527-550 | refused exactly when the directory is not absolute; otherwise the text of what the path denotes there, with a slash at the end if the path has one |
| FileUtils.WayLeads | buildbox-common/buildboxcommon/buildboxcommon_fileutils.cpp:571-593 | for every absolute path and every working directory in normal form, with or without a trailing slash: the result is relative if and only if no two slashes follow the directory in the path, and then making it absolute again gives what the path itself gives |
| PathExamples.DoubleSlashBreaksOut | buildbox-common/buildboxcommon/buildboxcommon_fileutils.cpp:584-586 | `/a//b` seen from `/a` becomes the absolute path `/b` |
| PathExamples.ParentSegmentMisleads | buildbox-common/buildboxcommon/buildboxcommon_fileutils.cpp:595-622 | from a directory written with `..` the result counts that segment like a name: `/a/c` seen from `/a/b/..` leads to `/c` |
| PathJoins.NormalizeBeforeJoin | buildbox-common/buildboxcommon/buildboxcommon_fileutils.cpp:637-654 | normalizing either operand before joining with a relative path changes nothing |
| PathJoins.JoinMeaning | buildbox-common/buildboxcommon/buildboxcommon_fileutils.cpp:625-656 | what a relative join denotes |
| PathJoins.JoinWithAbsolute | buildbox-common/buildboxcommon/buildboxcommon_fileutils.cpp:637-655 | with an absolute second path: that path, or when it is forced to be relative the first path followed by its segments |
| PathJoins.JoinAssociative | buildbox-common/buildboxcommon/buildboxcommon_fileutils.cpp:625-656 | relative joins are associative |
| PathJoins.NoEscapeIsPrefix | buildbox-common/buildboxcommon/buildboxcommon_fileutils.cpp:658-722 | for every base but the root and `.`: returned exactly when the join is of the same kind and has the base's segments as a prefix, else an exception |
| PathJoins.NoEscapeAtRoot | buildbox-common/buildboxcommon/buildboxcommon_fileutils.cpp:683-693 | for every base that denotes the root, either flag and every path: refused exactly when a relative path goes up and does not end at the root, although every join lies below it |
| PathExamples.NoEscapeRefusesBelowRoot | buildbox-common/buildboxcommon/buildboxcommon_fileutils.cpp:683-693 | `../a` is refused at the root, where it denotes `/a` |
| PathJoins.NoEscapeAtDot | buildbox-common/buildboxcommon/buildboxcommon_fileutils.cpp:683-693 | at `.` a relative path is returned if and only if it does not go up; an absolute one is always returned, and unless forced it is that absolute path |
| PathJoins.NoEscapeMisses | buildbox-common/buildboxcommon/buildboxcommon_fileutils.cpp:694-709 | what lies within the base is always returned; an escape is returned if and only if the join goes on upwards from a base made of `..` only |
| PathJoins.NoEscapeOfEmpty | buildbox-common/buildboxcommon/buildboxcommon_fileutils.cpp:665-670 | the empty path within any base is the base, although a plain join refuses it |
| PathExamples.NoEscapeMissedInputs | buildbox-common/buildboxcommon/buildboxcommon_fileutils.cpp:694-709 | `..` joined with `..`, and `.` with `/a`, are returned |
| StagedDirectory.WorkingDirectoryIs | buildbox-common/buildboxcommon/buildboxcommon_stageddirectory.cpp:121-152 | a working directory is refused exactly when it is absolute or goes up; an accepted one denotes the given segments, with a slash at the end unless it is empty |
| StagedDirectory.AcceptedIsDownward | buildbox-common/buildboxcommon/buildboxcommon_stageddirectory.cpp:178-187 | a name is accepted exactly when it neither begins nor ends with a slash and its normal form below the working directory does not go up |
| StagedDirectory.AcceptedStaysInside | buildbox-common/buildboxcommon/buildboxcommon_stageddirectory.cpp:81-84 | whatever is accepted resolves, against any absolute root, to that root or beneath it |
| StagedDirectory.RefusedLeavesSomeRoot | buildbox-common/buildboxcommon/buildboxcommon_stageddirectory.cpp:222-233 | a name is refused if and only if it begins or ends with a slash or would leave some root |
| NestedTree.AddIsPut | buildbox-common/buildboxcommon/buildboxcommon_merklize.cpp:93-152 | cutting a path at its slashes walks the names of the path |
| NestedTree.AddText | buildbox-common/buildboxcommon/buildboxcommon_merklize.cpp:93-152 | whatever does not end in a slash goes by its non-empty segments |
| NestedTree.AddLeadingSlash | buildbox-common/buildboxcommon/buildboxcommon_merklize.cpp:127-133 | a leading slash is skipped; alone it names no directory |
| NestedTree.AddTrailingSlash | buildbox-common/buildboxcommon/buildboxcommon_merklize.cpp:93-152 | a slash at the end names an entry with an empty name |
| NestedTree.PutLookup | buildbox-common/buildboxcommon/buildboxcommon_merklize.cpp:93-152 | adding an item puts it at its path, makes its ancestors directories, changes no other lookup |
| PathMaps.RepresentsAdd | buildbox-common/buildboxcommon/buildboxcommon_merklize.cpp:93-152 | one more path keeps the tree in step with the path map |
| PathMaps.RepresentsUnique | buildbox-common/buildboxcommon/buildboxcommon_mergeutil.cpp:303-309 | only one tree represents a path map |
| PathMaps.InsertionOrderIrrelevant | buildbox-common/buildboxcommon/buildboxcommon_mergeutil.cpp:303-309 | building from a path map gives the same tree in every order |
| StringOrder.SortedUnique | buildbox-common/buildboxcommon/buildboxcommon_merklize.cpp:156-157 | there is one way to list a set of names in order |
| StringOrder.LeqIsLexicographic | buildbox-common/buildboxcommon/buildboxcommon_merklize.cpp:156-157 | that order is by prefix and first different character |
| NestedDirectories.NestedDirectory.AddItem | buildbox-common/buildboxcommon/buildboxcommon_merklize.cpp:93-152 | the in-place walk over child objects adds the item; sibling objects stay apart |
| NestedDirectories.NestedDirectory.ToDigestStoring | buildbox-common/buildboxcommon/buildboxcommon_merklize.cpp:154-182 | digest and stored messages of the tree |
| NestedDirectories.NestedDirectory.SubdirList | buildbox-common/buildboxcommon/buildboxcommon_merklize.cpp:168-173 | directory nodes in name order with the digests of the children, whose messages are stored |
| NestedDirectories.NestedDirectory.ToTreeMessage | buildbox-common/buildboxcommon/buildboxcommon_merklize.cpp:184-206 | root and children of the Tree message |
| NestedDirectories.BuildFromMap | buildbox-common/buildboxcommon/buildboxcommon_mergeutil.cpp:303-309 | the built tree represents the map, whatever order the map is walked in |
| Messages.TreeRootAgrees | buildbox-common/buildboxcommon/buildboxcommon_merklize.cpp:154-206 | the digest of the Tree root is the digest of the directory |
| Messages.StoredKeys | buildbox-common/buildboxcommon/buildboxcommon_merklize.cpp:154-206 | the keys added are exactly the digests of the root and the children of the Tree |
| Messages.StoreKeepsClosed | buildbox-common/buildboxcommon/buildboxcommon_merklize.cpp:154-182 | every subdirectory digest inside a stored message is itself a key |
| TreeOrder.PlaceHolds | buildbox-common/buildboxcommon/buildboxcommon_merklize.cpp:197-200 | every directory below the root has a place among the children of the Tree message, and its message stands there |
| TreeOrder.EachHasPlace | buildbox-common/buildboxcommon/buildboxcommon_merklize.cpp:197-200 | every child is at the place of some directory |
| TreeOrder.AfterItsOwn | buildbox-common/buildboxcommon/buildboxcommon_merklize.cpp:197-200 | each directory comes after everything below it |
| TreeOrder.SiblingsInOrder | buildbox-common/buildboxcommon/buildboxcommon_merklize.cpp:197-200 | siblings come in name order, each with everything below it |
| MergeUtil.NewPathText | buildbox-common/buildboxcommon/buildboxcommon_mergeutil.cpp:148-154 | building path texts segment by segment joins the names |
| MergeUtil.EnterFiles | buildbox-common/buildboxcommon/buildboxcommon_mergeutil.cpp:187-207 | files are entered in order until one collides |
| MergeUtil.EnterSymlinks | buildbox-common/buildboxcommon/buildboxcommon_mergeutil.cpp:209-235 | symlinks are entered in order until one collides |
| MergeUtil.EnterSubdirs | buildbox-common/buildboxcommon/buildboxcommon_mergeutil.cpp:237-256 | subdirectories never collide; those the store has are entered recursively |
| MergeUtil.BuildFlattenedPath | buildbox-common/buildboxcommon/buildboxcommon_mergeutil.cpp:182-257 | over directories with distinct single-segment names the recursive walk enters exactly the flattened tree |
| MergeUtil.BuildDigestDirectoryMap | buildbox-common/buildboxcommon/buildboxcommon_mergeutil.cpp:259-268 | every directory under its digest, the first one of a digest staying |
| MergeUtil.ListNewDigests | buildbox-common/buildboxcommon/buildboxcommon_mergeutil.cpp:315-322 | exactly the digests that were in neither input, each once |
| MergeUtil.NewDigestsAre | buildbox-common/buildboxcommon/buildboxcommon_mergeutil.cpp:314-321 | the listed digests are the new blobs less those of the inputs, each once |
| MergeUtil.CreateMergedDigest | buildbox-common/buildboxcommon/buildboxcommon_mergeutil.cpp:272-325 | over such directories: false on a collision or two empty trees, an escaping exception when exactly one is empty; else digest and messages of the tree of the merged paths |
| Flatten.FoldMeaning | buildbox-common/buildboxcommon/buildboxcommon_mergeutil.cpp:182-257 | entering fails exactly if a new entry collides with one that was there before; otherwise old entries stay and new paths are added |
| Flatten.OneNodePerPath | protos/build/bazel/remote/execution/v2/remote_execution.proto:655-664 | in a tidy tree a path names one node |
| Flatten.AncestorsListed | buildbox-common/buildboxcommon/buildboxcommon_mergeutil.cpp:242-256 | every ancestor of a flattened path is listed as a directory |
| Flatten.Unfolding | buildbox-common/buildboxcommon/buildboxcommon_mergeutil.cpp:248-256 | a store whose digests do not loop unfolds |
| Flatten.UnfoldingUnique | buildbox-common/buildboxcommon/buildboxcommon_mergeutil.cpp:248-256 | a directory unfolds in one way only |
| MergeTheorems.FailsOnClash | buildbox-common/buildboxcommon/buildboxcommon_mergeutil.cpp:194-231 | the merge of any two tidy trees fails if and only if at some shared path, by kinds: a file meets a file of another digest or executable bit, a symlink unless its digest is empty, a directory unless they have one digest, the latter two also when it is executable; or a symlink meets one with another target. Nothing else fails |
| MergeTheorems.FailsOnDifference | buildbox-common/buildboxcommon/buildboxcommon_mergeutil.cpp:294-301 | for trees that agree on kinds: if and only if a shared file path differs in digest or executable bit or a shared symlink path in target |
| MergeTheorems.MergeIsUnion | buildbox-common/buildboxcommon/buildboxcommon_mergeutil.cpp:294-309 | for any two tidy trees: the merged paths are the union of both, each with the first tree's item if that has one; without hidden differences it is whatever item either has |
| MergeTheorems.MergeIsSymmetric | buildbox-common/buildboxcommon/buildboxcommon_mergeutil.cpp:294-301 | for trees that agree on kinds: swapping changes nothing about failing, and nothing about the merged items if and only if no two files hide a difference |
| MergeTheorems.BothMergeIffNoDifference | buildbox-common/buildboxcommon/buildboxcommon_mergeutil.cpp:294-301 | for any two tidy trees both orders succeed with the same items if and only if they agree on kinds and nothing differs at a shared path, openly or hidden |
| MergeTheorems.OrderIrrelevantExactly | buildbox-common/buildboxcommon/buildboxcommon_mergeutil.cpp:294-301 | the order does not matter if and only if nothing differs at a shared path or the trees collide in both orders |
| MergeTheorems.HiddenDifferenceMerges | buildbox-common/buildboxcommon/buildboxcommon_protos.h:103-107 | two files of one length under BLAKE3ZCC merge in either order, each order keeping its own |
| MergeTheorems.MergedLookups | buildbox-common/buildboxcommon/buildboxcommon_mergeutil.cpp:303-309 | for any two tidy trees that merge: every lookup in the merged tree is answered from the two, the first one before the second; its directories are theirs and whatever has a path below it |
| MergeTheorems.MergedNodes | buildbox-common/buildboxcommon/buildboxcommon_mergeutil.cpp:303-309 | every file and symlink of the merged tree, with all its properties, is one of the first tree or one of the second at a path the first does not have |
| MergeTheorems.MergedDirectories | buildbox-common/buildboxcommon/buildboxcommon_mergeutil.cpp:303-309 | where the trees agree on kinds the merged directories are exactly theirs |
| MergeTheorems.KindClashIsAsymmetric | buildbox-common/buildboxcommon/buildboxcommon_mergeutil.cpp:189-232 | a symlink over a file merges, the same file over the same symlink fails |
| MergeTheorems.FileOverDirectory | buildbox-common/buildboxcommon/buildboxcommon_mergeutil.cpp:45-49 | a file over a directory of another digest fails; in the other order it merges and keeps the file |
| MergeTheorems.FileAgainstDirectory | buildbox-common/buildboxcommon/buildboxcommon_mergeutil.cpp:272-325 | the two runs |
| MergedResult.FlatIsLookup | buildbox-common/buildboxcommon/buildboxcommon_mergeutil.cpp:182-257 | flattening the messages of a tree lists exactly its lookups, directories with their digests |
| MergeRoundTrip.StoredUnfolds | buildbox-common/buildboxcommon/buildboxcommon_merklize.cpp:154-182 | what a tree stored unfolds to that tree, whatever was stored before, if and only if no two directories of its Tree message share a digest |
| MergeRoundTrip.StoredTreeUnreadable | buildbox-common/buildboxcommon/buildboxcommon_protos.h:103-107 | two subdirectories of one size under digests that compare by size: the stored tree does not unfold to the tree |
| MergeRoundTrip.MessagesAreTree | buildbox-common/buildboxcommon/buildboxcommon_merklize.cpp:154-206 | the messages stored for a tree are the directories of its Tree message |
| MergeRoundTrip.DigestDetermines | buildbox-common/buildboxcommon/buildboxcommon_merklize.cpp:154-182 | without digest collisions equal digests mean equal trees |
| MergeRoundTrip.BuiltFlattens | buildbox-common/buildboxcommon/buildboxcommon_mergeutil.cpp:303-313 | flattening what was built from a path map returns its entries and their ancestors, nothing else; in a tidy tree if no file or symlink of the map has a path below it |
| MergeRoundTrip.MergeResultFlattens | buildbox-common/buildboxcommon/buildboxcommon_mergeutil.cpp:294-313 | for any two tidy trees that merge: flattening the result gives the union of the two, the first one's item where both have one, and a directory above every path; where the trees agree on kinds that is again a tidy tree |
| MergeRoundTrip.StoresAgree | buildbox-common/buildboxcommon/buildboxcommon_mergeutil.cpp:284-286 | the order of the two lists does not matter to the store if and only if no digest stands for one directory in the one and for another in the other |
| MergeRoundTrip.InjectiveAgrees | buildbox-common/buildboxcommon/buildboxcommon_mergeutil.cpp:284-286 | without digest collisions among the input directories that is so |
| MergeRoundTrip.MergeBothWays | buildbox-common/buildboxcommon/buildboxcommon_mergeutil.cpp:272-325 | for any two non-empty lists and any blobs there were before: each order fails exactly on its collisions; both orders see the same trees unless the lists share a digest for different directories; over the same trees without differences both give the same root digest and blobs, and with collision-free results only then |
| MergeRoundTrip.CanonicalIsWritten | protos/build/bazel/remote/execution/v2/remote_execution.proto:651-672 | every canonical tree is what some nested directory is written as |
| MergeRoundTrip.SelfMergeRepresents | buildbox-common/buildboxcommon/buildboxcommon_mergeutil.cpp:294-309 | merging a written directory with itself represents the same directory |
| MergeRoundTrip.MergeWithSelf | buildbox-common/buildboxcommon/buildboxcommon_mergeutil.cpp:272-325 | a canonical tree merged with itself returns its own digest |
| Batches.MakeBatches | buildbox-common/buildboxcommon/buildboxcommon_client.cpp:1123-1170 | non-empty ranges from 0 without gaps, each full and within the limit, up to a blob that fits no request; every request is within the limit if and only if the limit is at least 256 or there is nothing to send |
| Batches.InNumbers | buildbox-common/buildboxcommon/buildboxcommon_client.cpp:1130-1166 | in numbers: 256 for a request, the size and 256 more for each blob; every range is within the limit and would not be with one more blob |
| Batches.FillBatch | buildbox-common/buildboxcommon/buildboxcommon_client.cpp:1154-1163 | the inner loop takes as many blobs as fit, in wrapping arithmetic |
| Batches.EachIndexOnce | buildbox-common/buildboxcommon/buildboxcommon_client.cpp:1138-1141 | every index before the end is in exactly one range |
| Batches.BatchedExactlyIfFits | buildbox-common/buildboxcommon/buildboxcommon_client.cpp:1147-1151 | with ascending sizes a blob is batched if and only if it fits a request alone |
| Batches.GreedyStaysAhead | buildbox-common/buildboxcommon/buildboxcommon_client.cpp:1154-1166 | the k-th greedy range reaches at least as far as the k-th of any other cutting |
| Batches.FewestBatches | buildbox-common/buildboxcommon/buildboxcommon_client.cpp:1123-1170 | no contiguous cutting within the limit needs fewer requests |
| Batches.EachRequestOnce | buildbox-common/buildboxcommon/buildboxcommon_client.cpp:597-635 | the batches and then the rest are every request once, in order, for uploads as for downloads |
| Transfers.SortBySize | buildbox-common/buildboxcommon/buildboxcommon_client.cpp:742-746 | ascending sizes, the same requests |
| Transfers.DownloadBatches | buildbox-common/buildboxcommon/buildboxcommon_client.cpp:748-781 | the loop over batches, with its two ways of dealing with an exception |
| Transfers.AcceptedBlobs | buildbox-common/buildboxcommon/buildboxcommon_client.cpp:1078-1118 | a blob is handed out if and only if some response claims success for it and its bytes hash to the digest |
| Transfers.DownloadStreams | buildbox-common/buildboxcommon/buildboxcommon_client.cpp:794-849 | the loop over single streams |
| Transfers.DownloadBlobs | buildbox-common/buildboxcommon/buildboxcommon_client.cpp:731-852 | batches for what fits, streams for the rest; throws if and only if asked to and a batch call or a stream failed; every line of the result and every blob handed out is one of those spelled out and all of those are there |
| Transfers.ResultsSpelledOut | buildbox-common/buildboxcommon/buildboxcommon_client.cpp:759-846 | the result: 13 for each blob of a batch that threw, for each response its status or 13 if it is fine and the bytes do not hash to the digest, for each stream likewise with the size; nothing else |
| Transfers.EachReportedOnce | buildbox-common/buildboxcommon/buildboxcommon_client.cpp:731-852 | with servers that answer every digest asked for, each request is reported exactly once, whatever failed |
| Transfers.SmallOnesBatched | buildbox-common/buildboxcommon/buildboxcommon_client.cpp:748-792 | a blob goes by batch if and only if it fits a request on its own |
| Transfers.AllWritesVerified | buildbox-common/buildboxcommon/buildboxcommon_client.cpp:1079-1098 | every blob handed out hashes to the name it is handed out under |
| Transfers.NormalReturnIsNotSuccess | buildbox-common/buildboxcommon/buildboxcommon_client.cpp:726-728 | after a return without a failed call everything asked for arrived if and only if each digest that went into a batch has an accepted response |
| Transfers.OutcomesAreResponses | buildbox-common/buildboxcommon/buildboxcommon_client.cpp:1078-1118 | without a failed call the result lists only successes if and only if every response inside the batches holds |
| Transfers.HonestReturn | buildbox-common/buildboxcommon/buildboxcommon_client.cpp:726-728 | from servers that answer each digest asked for once: fine responses mean everything arrived, and for requests without repetition the converse holds too |
| Transfers.RepetitionHidesFailure | buildbox-common/buildboxcommon/buildboxcommon_client.cpp:1078-1118 | with a digest asked for twice a failed response can hide behind a fine one |
| ResultMaps.DownloadToMap | buildbox-common/buildboxcommon/buildboxcommon_client.cpp:661-691 | downloads without throwing and collects blobs, then failures, each under its hash unless that is taken |
| ResultMaps.AllMatched | buildbox-common/buildboxcommon/buildboxcommon_client.cpp:748-849 | reported successes and blobs handed out correspond |
| ResultMaps.OneBlobEach | buildbox-common/buildboxcommon/buildboxcommon_client.cpp:748-849 | one blob is handed out for each reported success, in that order |
| ResultMaps.FirstStays | buildbox-common/buildboxcommon/buildboxcommon_client.cpp:667-673 | of several blobs under one hash the first stays |
| ResultMaps.FirstFailureStays | buildbox-common/buildboxcommon/buildboxcommon_client.cpp:679-687 | of several failures under a hash without a blob the first stays |
| ResultMaps.CollectedIs | buildbox-common/buildboxcommon/buildboxcommon_client.cpp:661-691 | the map has an entry for the hash of every reported digest and no others, holds only what arrived, and all of it where hashes tell the reported digests apart |
| ResultMaps.MapPerName | buildbox-common/buildboxcommon/buildboxcommon_client.cpp:661-691 | with servers that answer each digest asked for once: one entry for the hash of every request; where hashes tell requests apart it holds exactly what arrived |
| ResultMaps.HoldsAllExactly | buildbox-common/buildboxcommon/buildboxcommon_client.cpp:661-691 | when everything arrived the map holds all of it if and only if no two different digests share a hash |
| ResultMaps.NamelessShareOneEntry | buildbox-common/buildboxcommon/buildboxcommon_cashash.cpp:173-175 | BLAKE3ZCC digests have an empty hash: one entry is left of a whole transfer |
| Transfers.EmptyReplyNotThrown | buildbox-common/buildboxcommon/buildboxcommon_client.cpp:1078-1118 | a run that was asked to throw, gets an empty reply, and returns normally with nothing |
| Transfers.MissingBlobNotThrown | buildbox-common/buildboxcommon/buildboxcommon_client.cpp:704-729 | a run that was asked to throw and returns normally without the blob |
| Uploads.BatchFailures | buildbox-common/buildboxcommon/buildboxcommon_client.cpp:1031-1041 | the answers of a batch that are not fine, or the whole batch when the call threw |
| Uploads.UploadBatches | buildbox-common/buildboxcommon/buildboxcommon_client.cpp:597-626 | the loop over batches collects the failures, or throws at the first exception when asked to |
| Uploads.UploadStreams | buildbox-common/buildboxcommon/buildboxcommon_client.cpp:633-655 | the loop over single uploads collects the failures, or throws at the first when asked to |
| Uploads.UploadBlobs | buildbox-common/buildboxcommon/buildboxcommon_client.cpp:575-658 | the result is the failures of all requests and nothing else, each with its code; empty only if no call failed; throws if and only if asked to and a batch call or a single upload failed |
| Uploads.FailuresSpelledOut | buildbox-common/buildboxcommon/buildboxcommon_client.cpp:606-655 | the failures: 13 for each blob of a batch that threw, each answer and each single upload with another status than 0 |
| Uploads.FailuresCount | buildbox-common/buildboxcommon/buildboxcommon_client.cpp:606-655 | a failure is listed as often as it occurs |
| Uploads.FailuresAreReported | buildbox-common/buildboxcommon/buildboxcommon_client.cpp:575-658 | the result names exactly those whose fate was a failure; every request has one fate if and only if the answers to the batches name each batched request once |
| Uploads.UnansweredNotReported | buildbox-common/buildboxcommon/buildboxcommon_client.cpp:1031-1041 | a run that was asked to throw, gets an answer without the blob, and returns normally without a failure |
| Download.FileDownload.Take | buildbox-common/buildboxcommon/buildboxcommon_client.cpp:292-300 | a piece is written, hashed and counted, or the file holds a part of it and an exception is thrown |
| Download.FileDownload.TakeAll | buildbox-common/buildboxcommon/buildboxcommon_client.cpp:291-301 | bytes written, hashed and counted stay the same over all pieces |
| Download.FileDownload.CheckWhole | buildbox-common/buildboxcommon/buildboxcommon_client.cpp:304-322 | accepted exactly when file size and digest match |
| Download.FileDownload.ReadOnce | buildbox-common/buildboxcommon/buildboxcommon_client.cpp:283-329 | one attempt: resumes at the byte reached, keeps the three counts equal |
| Download.FileDownload.Fetch | buildbox-common/buildboxcommon/buildboxcommon_grpcretrier.cpp:64-122 | calls again after status 14 with retries left and after nothing else, so the number of calls is exact; what each ending means |
| Download.CallsAfter | buildbox-common/buildboxcommon/buildboxcommon_grpcretrier.cpp:72-118 | after k interruptions with status 14 there is another call while k is within the limit, and it is the last if its status is another |
| Download.InterruptedRun | buildbox-common/buildboxcommon/buildboxcommon_client.cpp:286-301 | a server that breaks off k times and then sends the rest has sent the blob |
| Download.ReceivedIsPrefix | buildbox-common/buildboxcommon/buildboxcommon_client.cpp:286-301 | against a server that honours offsets the bytes received over any failures are a prefix of the blob |
| Download.DownloadBlob | buildbox-common/buildboxcommon/buildboxcommon_client.cpp:275-332 | unless the file runs full: returns normally if and only if the last call ended well, the hasher survived the pieces, the sizes agree and the digest has no other hash; from a server that honours offsets the file is a prefix of the blob, and the blob itself if the digest names its size; one that breaks off at most as often as the limit and then sends the rest leaves the whole blob, after exactly that many calls and one |
| Download.DownloadOntoData | buildbox-common/buildboxcommon/buildboxcommon_client.cpp:305-322 | the same through a descriptor at any offset of a file with any contents: a normal return also needs offset 0 and no more data before than was downloaded, so at the end of existing data it never comes |
| Download.ChecksCompareSizes | buildbox-common/buildboxcommon/buildboxcommon_client.cpp:305-322 | the two checks together hold if and only if the sizes are right, whatever the bytes |
| Download.OtherBytesAccepted | buildbox-common/buildboxcommon/buildboxcommon_client.cpp:315-322 | with the digest of one blob any other bytes of its length are accepted |
| Monitor.RunInv | buildbox-common/buildboxcommon/buildboxcommon_streamingstandardoutputstatfilemonitor.cpp:89-142 | in every state of every interleaving delivered bytes and buffer are the file as far as it was read; chunks are non-empty and larger than 100 bytes but for a last one |
| Monitor.DeliveredIsPrefix | buildbox-common/buildboxcommon/buildboxcommon_streamingstandardoutputstatfilemonitor.cpp:119-137 | delivered bytes are a prefix of the file; after a return at most 100 read bytes were not delivered, and none without a request to stop |
| Monitor.RoomNeeds102 | buildbox-common/buildboxcommon/buildboxcommon_streamingstandardoutputstatfilemonitor.cpp:103-109 | every read of every run has room for a byte if and only if the buffer has at least 102 |
| Monitor.SmallBufferFillsUp | buildbox-common/buildboxcommon/buildboxcommon_streamingstandardoutputstatfilemonitor.cpp:123-126 | a run in which a smaller buffer is stuck full below the minimum |
| Monitor.StopLosesHeldBytes | buildbox-common/buildboxcommon/buildboxcommon_streamingstandardoutputstatfilemonitor.cpp:125-137 | a run that reads a whole file of up to 100 bytes and returns without delivering any: the bound is reached |
| Monitor.StopLeavesFileUnread | buildbox-common/buildboxcommon/buildboxcommon_streamingstandardoutputstatfilemonitor.cpp:125-133 | a run that returns after one buffer of a file that was complete all along |
| Monitor.StopLosesNothingExactly | buildbox-common/buildboxcommon/buildboxcommon_streamingstandardoutputstatfilemonitor.cpp:103-137 | for every reachable state with the file finished and a stop requested, and every guarantee on how many bytes a read takes: all continuations that return deliver the whole file if and only if the state is one of the saved ones |
| Monitor.SavedAtWorst | buildbox-common/buildboxcommon/buildboxcommon_streamingstandardoutputstatfilemonitor.cpp:125-137 | inside the loop, with no guarantee on reads: saved means read to the end and not holding bytes past the look at the flag that would deliver them |
| MonitorThread.WaitForInitialFileWrite | buildbox-common/buildboxcommon/buildboxcommon_streamingstandardoutputstatfilemonitor.cpp:65-87 | the wait ends with data, with a failed stat, or after a stop |
| MonitorThread.ReadIntoBuffer | buildbox-common/buildboxcommon/buildboxcommon_streamingstandardoutputstatfilemonitor.cpp:103-119 | the read fills the buffer after what it holds |
| MonitorThread.MonitorFile | buildbox-common/buildboxcommon/buildboxcommon_streamingstandardoutputstatfilemonitor.cpp:89-142 | the loop is the history this world leads to, a run of the state machine, and returns within three looks at the world after a stop; it ends by an exception if and only if a read failed; if the state is a saved one when the stop comes it returns with the whole file delivered |
| MonitorThread.HistoryIsRun | buildbox-common/buildboxcommon/buildboxcommon_streamingstandardoutputstatfilemonitor.cpp:89-142 | the history of the thread in any world is a run of the state machine |
| MonitorThread.ReadTakes | buildbox-common/buildboxcommon/buildboxcommon_streamingstandardoutputstatfilemonitor.cpp:103-119 | a read takes the least of what it returns, the room but one, and the rest of the file |
| MonitorThread.CrashIsReadError | buildbox-common/buildboxcommon/buildboxcommon_streamingstandardoutputstatfilemonitor.cpp:110-114 | the thread ends by an exception exactly at a read that fails |
| MonitorThread.StopDelivers | buildbox-common/buildboxcommon/buildboxcommon_streamingstandardoutputstatfilemonitor.cpp:119-137 | with no more writes and reads of some bytes, a saved state at the stop means a normal return with everything delivered |
| MonitorThread.LateStopDelivers | buildbox-common/buildboxcommon/buildboxcommon_streamingstandardoutputstatfilemonitor.cpp:89-142 | for every world with a finished file and a late stop: a normal return, at most 100 bytes missing, none if and only if the stop does not fall between the two looks at the flag while bytes are held |
| MonitorThread.Follow | buildbox-common/buildboxcommon/buildboxcommon_streamingstandardoutputstatfilemonitor.cpp:89-142 | the callback received a prefix of the file in chunks of more than 100 bytes but for the last; if the file was finished long enough before the stop at most 100 bytes are missing |

## Left out

- The compression rounds, SIMD back ends, CPU detection and OpenSSL digests: the compression function is a parameter; downloads and files are modelled for BLAKE3ZCC digests.
- BLAKE3 output beyond 32 bytes, seeking in it, keyed and derived-key setup: the key words and flags are part of the scheme, deriving them is not modelled.
- The counter of compressions: every call in the source passes 0, so the compression function has no counter argument.
- Bits.HighestOne: the compiler builtins and the branching fallback are one definition, the index of the highest set bit.
- The hasher's integers are unbounded; inputs of 2^64 bytes and more are excluded, which is what the stack capacity assumes.
- Blake3Hasher.Hasher.MergeCvStack: what the source does after reading below the stack is undefined and modelled as a fault, not as a value.
- FileUtils.MakePathAbsolute: asks for a non-empty path, because the source reads the first and last character of it.
- FileUtils.WayLeads: for working directories in normal form; from others the value is known (FileUtils.MakePathRelative), but where it leads is shown for one input only (PathExamples.ParentSegmentMisleads).
- Path strings contain no NUL, since the source passes them through C strings.
- Opening, capturing and walking directories, file descriptors, `openat`, temporary files: input and output.
- Node properties and modification times of directory entries, and printing of trees.
- Protobuf encoding: serializing followed by hashing is one function, parsing gives the message back.
- Messages of directories name their subdirectories by what digests are compared by; a hash that takes no part in comparisons is kept for files only, so two directory digests that compare equal are one.
- MergeTheorems.FailsOnDifference: for tidy trees (single-segment, distinct names per directory, as the protocol demands) that agree on kinds; without agreement on kinds the exact condition is that of MergeTheorems.FailsOnClash.
- MergeRoundTrip.MergeBothWays: the two results are compared where both orders unfold to the same trees; with a digest shared by different directories each order keeps whichever came first and may see other trees.
- MergeRoundTrip.MergeWithSelf: every subdirectory is in the input list; one that is missing is flattened as empty and the digest changes.
- MergeUtil.BuildFlattenedPath: for directories whose names are single segments and distinct, like MergeUtil.CreateMergedDigest.
- MergeUtil.CreateMergedDigest: for directories whose names are single segments and distinct, as the protocol demands and the source does not check; the order in which a map with other names would be rebuilt is unspecified.
- Null pointers for the digest map and the list of merged directories: both are always given.
- Looping digests: the walk over subdirectories follows a finite unfolding; a store that loops, which hashing excludes, would not end in the source.
- Batches.MakeBatches: limits of 2^63 bytes and more, for which the running sum can wrap, are excluded.
- Transfers.DownloadBlobs: the variant that stores into a temporary directory, and failures of the write callback.
- ResultMaps.MapPerName: for servers that answer each digest asked for once; for others ResultMaps.CollectedIs says what the map holds in terms of what was reported.
- Transfers.EachReportedOnce: for servers that answer each digest asked for once; the source does not compare the responses with the request.
- Uploads of one file with retries: the seek to the start is outside the retried call, so no resumption claim holds.
- Download.FileDownload.Write: a descriptor whose offset lies within the file, and a capacity; holes left by an offset past the end, other writers and concurrent truncation are not modelled.
- Retry delays, their exponential growth and the delay a server may ask for: only the number and order of attempts is modelled.
- MonitorThread.MonitorFile: starts when the object is constructed; in the source the thread is started before the buffer members are initialized.
- The inotify monitor, the command line, connection options, logging, the runner, process control, metrics and publishers.
