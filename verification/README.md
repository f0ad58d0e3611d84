# Soal, modelled and proved in Dafny

Soal is a content-addressed, versioned vault. Files are cut into chunks, chunks are stored (encrypted or not) under
the hash of what is stored, trees map paths to chunk lists, and signed commits form a graph of versions. Nodes exchange
these objects over an untrusted network and tell each other about new heads in signed announcements. This project
models that core and proves what it promises.

| file | what it holds |
|---|---|
| `Bytes.dfy`, `Cbor.dfy`, `Records.dfy`, `Frames.dfy` | bytes, UTF-8, hexadecimal text; CBOR item heads, strings and arrays with the encoder's buffer and the decoder's cursor; maps with fixed integer keys; domain frames |
| `Texts.dfy` | what the text functions mean: characters and UTF-8, white space, hexadecimal digits, the order of strings |
| `Paths.dfy`, `PathRules.dfy`, `Trees.dfy`, `TreeCodec.dfy` | path rules and conflict names, and what they mean on bytes; trees and their merge; the tree body on the wire |
| `Commits.dfy`, `Heads.dfy` | commit bodies, sign preimages and signatures; head announcements |
| `Layouts.dfy`, `Languages.dfy` | the wires byte by byte; exactly which bytes the decoders accept |
| `Chunking.dfy`, `Disks.dfy`, `Versions.dfy`, `Adding.dfy` | chunk covers; a vault directory as a value, what loading and restoring mean; versions; what an add adds |
| `Reach.dfy`, `Registry.dfy`, `Gc.dfy`, `Merging.dfy`, `Snapshots.dfy` | reachability in any commit graph; the snapshot registry; mark and sweep; what a merge and a snapshot do to a disk |
| `Vaults.dfy`, `Runs.dfy` | the vault object and its operations; whole runs against a plain list of versions |
| `Network.dfy`, `Sync.dfy`, `Resume.dfy`, `Provide.dfy` | failover; the checkpointed fetch; crashes and resumes; the provider and the theorem that joins both sides |
| `Announce.dfy`, `Placement.dfy`, `Schedule.dfy` | the replay protocol; peer ranking; timed snapshots |
| `Toy.dfy`, `Witnesses.dfy`, `Gaps.dfy` | a vault whose hash is the length of an object, and inputs and runs on it for the claims that fail |

## How it is modelled

- A Rust string is a byte sequence that is valid UTF-8. 64-bit numbers are bounded, and where the program casts or adds
  in 64 bits (`as i64`, the announcement counter) the wrap-around is written out.
- The hash function is a parameter `H` of everything. Nothing is assumed of it, in particular not that it is injective.
  `save_tree`, `save_commit` and the object imports overwrite the file of the same name; a vault records in the ghost field
  `clash` the first pair of byte strings with one hash that made such a write replace a different object. The
  theorems about versions hold as long as that has not happened. Every operation says exactly when it does: `clash` stays `None`
  if and only if the objects it writes, which are functions of the disk before, replace no different object.
- Three things are taken on trust, and stated in `Disks.Trusted`: decryption inverts the deterministic encryption, the
  chunker's spans follow each other and cover the data, and a node signs what its key verifies. Signatures are an abstract relation.
- Clocks, message texts, the local identity, the peers' answers and whether and when a process dies are parameters.
  Peers may answer anything at any time.
- Code that changes things in place is a class or a method with a loop: the encoders' `Buffer`, the decoders' `Cursor`,
  `Tree`, `Vault`, `Net`, `Engine`, `Node`, `Scheduler`. Each is proved against a function or a statement about the old and the
  new state, and the theorems are about those.
- What a defining function computes is fixed by a law that does not name it: on bytes, on positions in the input, on the
  fields of what is loaded. Such laws end in `Exact`, `Exactly`, `Is`, `Are`, `Layout` or `Language`.

## Main results

1. **A vault is a list of versions** (`Runs.Run`). For any run of adds, snapshots, merges, imports, head recordings,
   prunings and collections from an empty vault the disk at every point is a function of the operations, each operation succeeds
   exactly when that disk says so, and up to the first write that would replace a different object under the same hash each does to
   the list of versions what it would do to a plain list: an add lays its files over the last version, a snapshot repeats it, a
   merge brings the remote's files in. Every commit that ever was HEAD is an ancestor of HEAD, and if it was complete then it
   is complete now and restores to exactly the files it had. If the heads that were merged could be restored, that is
   every version. Encryption, deduplication and collection, even one that is interrupted between two deletions
   (`Gc.SweptRepresents`), cannot be seen.
2. **Merges** (`Trees.MergeSizeExact`, `MergeLosesNothing`, `MergeAgain`, `Vaults.Vault.MergeHead`). A merge of restorable heads
   can be restored. The count of conflict copies is exact if and only if no divergent path's conflict name is a key of
   either tree; then nothing is lost, the merged commit restores the files of both sides and no others, and merging again changes nothing.
   With clashes, which entries are copied aside and which of ours are lost is known exactly (`Trees.OursLostExactly`).
3. **Collection** (`Vaults.Vault.GcAll`, `Gc.MarkObjects`, `Gc.MarkChunks`, `CollectedExact`, `CollectedTwice`). Both mark loops
   compute the graph closure, over any commit graph, cyclic or with missing parents, and the sweeps leave exactly what is marked;
   the exact conditions under which that is what is reachable, and that a second collection removes nothing.
4. **Sync is safe against crashes and liars** (`Sync.Engine.FetchDag`, `Resume.Attempts`). On every exit the store is sound and
   has grown only by objects that were wanted and that a peer gave under their names, no checkpoint claims what is not
   there, HEAD has not moved or moved to a complete target, the loop is bounded, and every error is explained by what the
   peers answered. Success off the fast path means that every ancestor is complete.
5. **One honest peer is enough** (`Provide.Transfer`). What a provider collects contains everything a fetcher will ask for exactly
   when the chunks of the trees that its breadth-first walk skips turn up elsewhere on the walk. With one peer that serves it among
   any others, and no hash collision among the objects and answers of the run, a fetch by a process that does not die succeeds.
6. **Codec** (`TreeCodec.TreeRoundTrip`, `TreeSlack`, `Languages.TreeLanguage`, `CommitLanguage`, `HeadLanguage`,
   `Commits.CommitRoundTrip`, `SignMessageInjective`, `Heads.HeadMessageInjective`, `PreimagesSeparate`). Round trips, exactly
   which bytes each lenient decoder accepts and as what, the exact slack, injectivity of both sign preimages, normal forms under
   which signatures survive, and separation of everything that is signed or content-addressed.
7. **Signatures and paths** (`Disks.ObjectExact`, `StoredCommitsVerify`, `PathRules.AcceptedIsSafe`, `SafeIsAccepted`,
   `NormalizeExactly`, `DistinctLabels`). A commit is let in if and only if it is what its name says and its signature is 64 zeros or
   verifies, so every stored commit with a signature verifies, at every exit of a fetch. A path is accepted as it stands if
   and only if it has no empty, "." or ".." segment, no NUL, backslash or drive prefix, and anything else that is accepted is
   such a path with "./", slashes in front and slashes behind. Conflict copies under distinct labels never share a name.
8. **Replay** (`Announce.ReplayProtocol`, `NextGetsThrough`), **placement** (`Placement.RankingInBands`, `RankingIgnoresOrder`),
   **scheduling** (`Schedule.ScheduleBound`, `RunSchedule`, `CountdownExact`).

## Where a promise ends

Claims that are false of the code as it stands, with the exact condition where there is one:

- A conflict copy overwrites an entry that already has its name: `Trees.ClashOverwrites`; the count is right exactly under
  `Trees.MergeSizeExact`, and which entries of ours are lost says `Trees.OursLostExactly`.
- `merge_head` collapses HEADS to the merge, so a third head can be lost: `Witnesses.ThirdHeadIsLost`; it survives collection
  exactly when HEAD, the remote head or a registered snapshot leads to it or one of these names it: `Merging.HeadsAfterMerging`.
  `set_head_public` can lose the old HEAD: `Witnesses.OldHeadIsLost`; exact condition `Gc.OldHeadAfterAdopting`.
- `is_complete` looks at the tip alone, and the fast path of a fetch trusts it: `Resume.FastPathLeavesGaps`. The target is the
  first commit a fetch visits, so once a fetch has got past its first turn the target is complete whatever happens next
  (`Sync.Engine.FetchDag`), and the next attempt takes the fast path. `Gaps.ResumeAdoptsAGap` is such a run: it adopts a head whose
  parent is missing. On the fast path the line is whole afterwards if and only if it was before.
- Collection does not know the sync jobs; a checkpoint stays right exactly when all it lists is live: `Resume.JobSurvivesGc`.
  What a checkpoint lists is never fetched again, so a fetch whose target, tree or chunk was collected fails for ever, whatever
  the peers answer (`Sync.Stuck`, `Sync.Engine.FetchDag`): `Gaps.CollectionStrandsAJob` is such a run, and `Resume.StrandedByGc`
  says exactly when it happens.
- The provider skips the chunks of a tree whose name it has already emitted as a chunk: `Gaps.ProviderOmitsAChunk`. It omits
  nothing exactly when the chunks of skipped trees turn up elsewhere on its walk (`Provide.WalkOrder`): `Provide.CollectProvide`.
- A commit may name a commit as its tree, and collection then keeps both: `Witnesses.NamedAsTreeStays`; exact conditions
  `Gc.CollectedExact`.
- The head preimage has seven pairs behind a map header that says six. It is injective all the same: `Heads.HeadMessageInjective`.
- Tree keys are sorted by their UTF-8 bytes, not by their encoded bytes as section 4.2.1 of RFC 8949 has it.
- `normalize_path` alone is not idempotent: `Paths.NormalizeAloneIsNotIdempotent`; exact condition `Paths.NormalizeTwiceExact`.
- The tree decoder takes a chunk list in a directory entry and drops it: `Languages.TreeLanguage`, `Languages.DirAt`.
- A wire version of 0 is read and written back as 1, so it is the one case where a commit body of canonical length is not kept:
  `Commits.CommitSlack`.
- From 2^63 seconds on an age can become negative in the score: `Placement.WrappedAgeBreaksBands`, exact range `Placement.FreshnessExact`.
- The announcement counter runs over after 2^64 - 1, and nobody accepts the 0 that follows: `Announce.NextGetsThrough`.
- A snapshot taken when the clock reads 0 leaves the next one due at every time: `Schedule.AlwaysDue`.

## Model

| member | source | states |
|---|---|---|
| `Bytes.HexRoundTrip` | src/lib.rs:54-71 | decoding the hexadecimal text of any bytes gives the bytes |
| `Bytes.FromHexRoundTrip` | src/lib.rs:54-71 | a content hash read back from its own text, through trimming and the length and digit checks, is itself |
| `Texts.ValidUtf8Exact` | src/codec.rs:192-196 | bytes are valid text if and only if they are the UTF-8 form of some Unicode scalar values |
| `Texts.TrimExact` | src/lib.rs:61 | trimming takes off exactly the Unicode white space on both sides, whatever characters stand there |
| `Texts.HexDigits` | src/lib.rs:54-56 | the text of bytes has two lower-case digits for each, the higher one first |
| `Texts.HexDecodeExact` | src/lib.rs:65 | text decodes to these bytes if and only if, letters put in lower case, it is their digits |
| `Texts.FromHexExact` | src/lib.rs:60-71 | a hash is read from text if and only if the trimmed text, letters put in lower case, is the hash's own |
| `Texts.LessExact` | src/codec.rs:253 | the order of paths: a proper prefix comes first, and otherwise the smaller byte where the two first differ decides |
| `Cbor.WidthLeast` | src/codec.rs:86-102 | a number that can be read from some bytes never needs more bytes in the encoder's form |
| `Cbor.Buffer.PushUint` | src/codec.rs:86-102 | the buffer gains exactly the shortest head of the number under the major type, and nothing else changes |
| `Cbor.Buffer.WriteBstr` | src/codec.rs:108-111 | the buffer gains a head with the length and then the bytes |
| `Cbor.Buffer.WriteTstr` | src/codec.rs:113-116 | the same for text, under major type 3 |
| `Cbor.WriteKeyCids` | src/codec.rs:266-271 | the loop over hashes appends the array header and one 32-byte string for each, in order |
| `Cbor.Cursor.Take` | src/codec.rs:136-143 | the cursor yields the next n bytes and advances past them, or refuses and stays where it is |
| `Cbor.Cursor.ReadHeadItem` | src/codec.rs:149-175 | an item head of any width, the shortest or not, gives its major type and number; indefinite and reserved forms and short input are refused |
| `Cbor.Cursor.ExpectUint` | src/codec.rs:177-185 | a head of another major type is refused |
| `Cbor.Cursor.ReadTextString` | src/codec.rs:192-196 | a text is read exactly when its bytes are there and are valid UTF-8 |
| `Cbor.Cursor.ReadCidList` | src/codec.rs:336-348 | the loop reads the announced number of 32-byte strings, in order, and refuses any other length |
| `Cbor.HeadRoundTrip` | src/codec.rs:86-185 | a head that stands anywhere in the input is read back with its number, and the position ends right after it |
| `Cbor.TstrRoundTrip` | src/codec.rs:113-116 | a written text that stands anywhere in the input is read back |
| `Cbor.CidsRoundTrip` | src/codec.rs:266-348 | a written hash list that stands anywhere in the input is read back |
| `Cbor.HeadSlack` | src/codec.rs:149-175 | no accepted head is shorter than the encoder's, and one as short is the encoder's, byte for byte |
| `Cbor.CidsSlack` | src/codec.rs:336-348 | the same for hash lists |
| `Layouts.HeadLayout` | src/codec.rs:86-102 | the head of a number byte by byte in each of the five ranges |
| `Layouts.AnyWidthIsRead` | src/codec.rs:149-175 | a number is read from a head of any width that holds it |
| `Layouts.CidsLayout` | src/codec.rs:266-271 | the i-th hash of a list stands at byte 34 i, behind 0x58 0x20 |
| `Records.DecodeRecord` | src/codec.rs:475-570 | the decoder's loop over a map with known keys: exactly the bodies with the right header, increasing known keys, fitting values and no trailing byte are read, and every value is found under its key |
| `Records.RecordRoundTrip` | src/codec.rs:403-570 | values encoded under the keys 1, 2, ... are decoded to those values, with nothing left over |
| `Records.RecordSlack` | src/codec.rs:475-570 | an accepted body holds every key once and in order; its values re-encode to no more bytes, and to as many only if the body is that encoding |
| `Records.KeyedInjective` | src/codec.rs:439-473 | two value lists of the same kinds that stand at the same place in the same bytes are equal |
| `Languages.RecordLanguage` | src/codec.rs:475-570 | a record is read if and only if its body is a map header with the number of keys, then the keys 1, 2, ... each with a value of its kind, in heads of any width, and nothing after them |
| `Frames.UnframeExact` | src/codec.rs:51-60 | unframing under a domain accepts the frames under that domain and nothing else, and gives back what was framed |
| `Frames.FramesDiffer` | src/codec.rs:37-60 | frames under different domains are never equal |
| `Layouts.DomainsAre` | src/codec.rs:18-28 | the domains are the names "soal/tree/v1", "soal/commit/v1" and "soal/head/v1", filled with zeros to 16 bytes |
| `Frames.TreeWireRoundTrip` | src/codec.rs:384-392 | a framed tree is decoded to the tree |
| `Frames.DecodedTree` | src/codec.rs:389-392 | whatever wire the decoder accepts gives a tree with valid paths that the encoder accepts |
| `Paths.NormalizeAndValidateIdempotent` | src/tree.rs:202-212 | what the entry points return is a valid path, and passing it through again changes nothing |
| `Paths.NormalizeAloneIsNotIdempotent` | src/tree.rs:156-162 | normalising alone, without validation, can change its own result: a concrete path |
| `Paths.NormalizeTwiceExact` | src/tree.rs:156-162 | normalising twice is normalising once if and only if what is left of the front does not start with "./" again, or has only slashes behind the dot |
| `Paths.ValidIsNormal` | src/tree.rs:156-195 | every path that validation accepts is already normal |
| `Paths.NormalizedIsWirePath` | src/tree.rs:202-212 | from any Rust string the entry points make, if anything, valid UTF-8 that validation accepts |
| `PathRules.AcceptedIsSafe` | src/tree.rs:164-212 | on bytes: in an accepted path no stretch between slashes or an end is empty, "." or ".."; it neither starts nor ends with a slash, holds no NUL and no backslash, and has no drive prefix |
| `PathRules.SafeIsAccepted` | src/tree.rs:164-212 | conversely, every path free of these is accepted unchanged |
| `PathRules.NormalizeExactly` | src/tree.rs:156-212 | a path is accepted as another one if and only if it is that one with any number of "./" and then of slashes in front, and any number of slashes behind |
| `Paths.SanitizeLabel` | src/tree.rs:227-244 | whatever the label, the sanitised one has 1 to 32 characters, all of them letters, digits, dashes or underscores; which ones says `PathRules.SanitizeExact` |
| `Paths.CutUnique` | src/tree.rs:215-223 | there is only one way to cut a path into directory, stem and extension |
| `Paths.ConflictNameInjective` | src/tree.rs:215-223 | under one label, distinct paths have distinct conflict names |
| `Paths.ConflictNameIsWirePath` | src/tree.rs:166-223 | the conflict name of a valid path is a valid path |
| `PathRules.ConflictNameIs` | src/tree.rs:215-223 | a path cut after its last slash and before the last dot of its name gets " (conflict from ", the label and ")" between stem and extension |
| `PathRules.PathHasParts` | src/tree.rs:216-222 | every path can be cut in this way |
| `PathRules.SanitizeExact` | src/tree.rs:227-244 | of any label, the i-th of its first 32 characters is kept if it is a letter, a digit, a dash or an underscore, and becomes an underscore otherwise; only the empty label gives "remote" |
| `PathRules.CleanIsKept` | src/tree.rs:227-244 | a clean label is its own sanitised form |
| `PathRules.NamesUnderLabels` | src/tree.rs:215-244 | equal conflict names under clean labels come from equal paths and equal labels |
| `PathRules.DistinctLabels` | src/tree.rs:102-121 | under labels that stay distinct no two paths share a conflict name |
| `Trees.SortedKeysInOrder` | src/codec.rs:253 | the iteration lists every key once in strictly increasing byte order |
| `Trees.KeyOrderUnique` | src/codec.rs:253 | there is only one such order |
| `Trees.CopyNameFits` | src/tree.rs:215-244 | what the merge theorems need of the naming, that it is injective and keeps paths valid, holds of the real conflict names |
| `Trees.MergeSizeExact` | src/tree.rs:102-121 | the size of the merge is the union of the keys plus the count of copies if and only if no divergent path's conflict name is a key of either tree |
| `Trees.MergeLosesNothing` | src/tree.rs:93-121 | without such a clash ours stays, theirs is found at its path or its conflict name, nothing else appears, and what is copied aside are the paths on which the two differ |
| `Trees.TwoMerges` | src/tree.rs:102-121 | two merges of one path under labels that stay distinct leave ours and both copies, and nothing else |
| `Trees.BothCopiesStay` | src/tree.rs:102-121 | two merges of whole trees under such labels, without clash, keep ours and both of theirs for every path on which all differ |
| `Trees.MergeAgain` | src/tree.rs:93-121 | without such a clash, merging the same tree again under the same label leaves the tree unchanged |
| `Trees.ClashOverwrites` | src/tree.rs:113-117 | with a clash, the entry of ours that bears the conflict name is replaced by theirs: a family of inputs |
| `Trees.MergeExactly` | src/tree.rs:102-121 | any merge, with clashes or not: a key of theirs is copied aside exactly when, at its turn, an earlier copy that stands in its place differs from it, or, if none does, ours differs; a copy stands where it landed, and elsewhere ours does, or theirs where we have none |
| `Trees.OursLostExactly` | src/tree.rs:102-121 | an entry of ours is lost if and only if its path is the conflict name of a key of theirs that is copied aside and differs from it |
| `Trees.MergeKeepsWirePaths` | src/tree.rs:102-121 | a merge of trees with valid paths has valid paths |
| `Trees.Tree.TryAddFile` | src/tree.rs:70-79 | an entry appears at the normalised path, or nothing changes and the path was refused; trees with valid paths stay such |
| `Trees.Tree.MergeWithConflicts` | src/tree.rs:102-121 | the loop leaves exactly the tree of which the merge theorems speak, and returns the number of paths copied aside |
| `Trees.AllChunkHashes` | src/tree.rs:124-133 | exactly the chunks of the file entries are listed |
| `TreeCodec.EncodeTreeBody` | src/codec.rs:244-281 | every tree within the entry cap is written, in key order, as the body that the round trip speaks of; a larger one is refused |
| `TreeCodec.DecodeTreeBody` | src/codec.rs:284-381 | the cursor loops decode exactly what the recursive grammar of tree bodies accepts, to the same tree or the same error |
| `TreeCodec.TreeRoundTrip` | src/codec.rs:244-381 | decoding the encoding of any tree with valid paths and at most MAX_TREE_ENTRIES entries gives the tree, with no byte left over |
| `TreeCodec.TreeBodyInjective` | src/codec.rs:244-281 | distinct trees have distinct bodies |
| `TreeCodec.TreeSlack` | src/codec.rs:284-381 | every accepted body gives a tree with valid paths within the cap; it re-encodes to no more bytes, and to as many only if the body is that encoding |
| `Languages.TreeLanguage` | src/codec.rs:284-381 | the decoder gives a tree if and only if the body is a map with the one key 1, under it at most a million pairs under strictly increasing valid paths, each entry a file with keys 1, 2, 3 or a directory with keys 1, 2 and possibly a third that is dropped, in heads of any width, nothing after them, and the tree is that of the pairs |
| `Layouts.EntryLayout` | src/codec.rs:255-277 | the bytes of a file entry and of a directory entry |
| `Layouts.TreeLayout` | src/codec.rs:244-281 | a tree's wire: domain, a map with the key 1, a map header with the number of entries, and the entries |
| `Layouts.PairsLayout` | src/codec.rs:253-278 | each entry stands behind its path, between those before and after it |
| `Layouts.PairsListed` | src/codec.rs:253 | the entries are those of the tree in the order of their paths |
| `Commits.EncodeCommitBody` | src/codec.rs:403-436 | the seven fields are written in order exactly when the parents are within the limit of 16 |
| `Commits.EncodeSignMessage` | src/codec.rs:439-473 | the preimage holds the first six of these fields under the commit domain |
| `Layouts.SignMessageLayout` | src/codec.rs:439-473 | the preimage byte by byte: domain, map header, and tree, parents, author, time, message and version under keys 1 to 6 |
| `Commits.SignMessageInjective` | src/codec.rs:439-473 | two commits have the same preimage if and only if they agree on tree, parents, author id, time, message and wire version |
| `Layouts.CommitLayout` | src/codec.rs:403-436 | the wire byte by byte: the same six fields and the 64 signature bytes under key 7 |
| `Commits.AuthorIdExact` | src/codec.rs:225-233 | an author whose trimmed text is the hexadecimal form of 32 bytes stands for these, any other for the hash of "soal-author:" and the text |
| `Commits.SignatureBytesExact` | src/commit.rs:49-60 | a signature is the 64 bytes whose hexadecimal form its trimmed text is, and 64 zeros if there are none |
| `Commits.DecodeCommitBody` | src/codec.rs:475-570 | the decoder's loop accepts exactly the well-formed seven-key records, to a commit with hexadecimal author and signature |
| `Commits.CommitRoundTrip` | src/codec.rs:403-580 | decoding an encoded commit gives its normal form: author and signature as lower-case hexadecimal, version never 0 |
| `Commits.NormalKeepsWire` | src/codec.rs:225-237 | the normal form has the same wire, sign preimage and signature, and is its own normal form |
| `Commits.CommitSlack` | src/codec.rs:475-570 | an accepted body re-encodes to no more bytes, and to itself if and only if the lengths agree and its version field is not 0 |
| `Languages.CommitLanguage` | src/codec.rs:475-570 | the decoder gives a commit if and only if the body is the record of a tree, at most 16 parents, 32 author bytes, a time, a text, a 16-bit version and 64 signature bytes, and these are the commit's |
| `Commits.RefusedExactly` | src/identity.rs:61-74 | a decoded commit passes if and only if its 64 signature bytes are zeros or the author's key verifies them over the preimage |
| `Commits.SignedIs` | src/identity.rs:47-56 | signing sets author, version and the signature of the preimage, and nothing else |
| `Commits.SignatureSurvives` | src/identity.rs:61-74 | a signature verifies after transfer if and only if it did before |
| `Commits.SignedVerifies` | src/identity.rs:47-74 | a commit signed by a node verifies, at once and after transfer |
| `Heads.EncodeHeadMessage` | src/codec.rs:658-682 | the bytes emitted: a header that says six, then the seven signed pairs |
| `Heads.HeadMessageInjective` | src/codec.rs:658-682 | two announcements have the same preimage if and only if they agree on the seven signed fields; name and signature play no part |
| `Heads.PreimagesSeparate` | src/codec.rs:37-42 | commit wires, commit preimages, head preimages and tree wires of any contents never coincide across kinds |
| `Heads.EncodeHead` | src/codec.rs:685-715 | an announcement is refused exactly for a too long name or body, and otherwise written as the nine fields |
| `Heads.HeadBodyIsSmall` | src/codec.rs:685-715 | the check on the whole message never fires once the name has passed |
| `Heads.HeadRoundTrips` | src/codec.rs:685-811 | an announcement that is sent is received whole |
| `Layouts.HeadMessageLayout` | src/codec.rs:658-682 | the preimage byte by byte: domain, the header that says six, and the seven pairs under keys 1, 2 and 4 to 8 |
| `Languages.HeadLanguage` | src/codec.rs:717-811 | the decoder gives an announcement if and only if the body has at most 65536 bytes and is the record of its nine fields |
| `Chunking.ChunkBytes` | src/chunking.rs:64-84 | the loop keeps the pieces that end within the data, and falls back to one chunk |
| `Chunking.ChunksCover` | src/chunking.rs:64-84 | from contiguous spans the chunks put together again are the data, empty data included |
| `Chunking.ChunksAreSpans` | src/chunking.rs:64-84 | from contiguous spans the i-th chunk is the slice at the i-th span |
| `Disks.SavedTreeLoads` | src/vault.rs:430-598 | what is saved as a tree is loaded as that tree, past the hash check, the decoder and the re-encoding check |
| `Disks.SavedCommitLoads` | src/vault.rs:443-571 | what is saved as a commit is loaded as its normal form |
| `Disks.LoadedTree` | src/vault.rs:573-598 | whatever tree loads has valid paths, is within the cap and was found under its own hash |
| `Disks.TreeObjectExact` | src/vault.rs:573-598 | bytes load as a tree under a name if and only if they hash to it, decode to the tree, and so does its own encoding |
| `Disks.ObjectExact` | src/vault.rs:1111-1124 | bytes pass as a commit under a name if and only if they hash to it, decode, re-encode to the same hash, and the signature is 64 zeros or verifies under the author's 32 bytes |
| `Disks.StoredCommitsVerify` | src/vault.rs:1120-1121 | in a sound store every commit with a non-zero signature verifies |
| `Disks.StoredFileReads` | src/vault.rs:399-428 | a file whose chunks are stored is read back whole |
| `Disks.FileReadsExactly` | src/vault.rs:764-785 | a file reads as these bytes if and only if they have its size and are cut into parts, each stored under its chunk's hash, as it is or sealed |
| `Disks.RestoreExact` | src/vault.rs:749-793 | a commit restores to these files if and only if it and its tree load, the files are those of the tree, their paths are valid, and each reads as stored |
| `Disks.SameRestore` | src/vault.rs:749-793 | a complete commit is restored the same from any disk that agrees on its commit, tree and chunks |
| `Disks.ExtendsRestore` | src/vault.rs:749-793 | adding objects changes nothing about what a complete commit restores to |
| `Versions.NewHead` | src/vault.rs:685-692 | a commit on top of HEAD adds one version and keeps all others |
| `Versions.ExtendingKeeps` | src/vault.rs:1034-1132 | importing objects keeps every version and the order of versions |
| `Versions.MadeCommitIsGood` | src/vault.rs:456-474 | a commit the vault makes, signed or not, can be encoded, decoded and verified |
| `Versions.MadeCommitIs` | src/vault.rs:456-474 | with a key the author is the key and the signature is the key's over the preimage; without one the commit is "soal-local" and unsigned; the other fields are the given ones |
| `Versions.OverlayExact` | src/vault.rs:673-677 | an added path has the last entry added for it, and every other path keeps its own |
| `Versions.OverlayRestores` | src/vault.rs:673-677 | adding stored entries to a tree adds exactly their files to what it restores |
| `Versions.MergeRestores` | src/vault.rs:1184-1193 | a merge of two trees that can be restored can be restored, clash or not |
| `Versions.MergeRestoresBoth` | src/vault.rs:1184-1193 | without clash it restores exactly the files of both sides, each at its path or at its conflict copy's, and no others |
| `Versions.MergeHasChunks` | src/vault.rs:1184-1193 | a merge of trees whose chunks are here has its chunks here, clash or not |
| `Adding.PlaceIsWirePath` | src/vault.rs:648-665 | wherever a folder's file is put, the path is valid |
| `Adding.PlaceIs` | src/vault.rs:648-665 | a file goes to its own path if there is no base name, and to base, slash and path if there is one |
| `Adding.AddedIs` | src/vault.rs:615-670 | what is added, entry by entry: one file at the base name, or each file of a folder in order at base, slash and its path; nothing if a name is refused or the folder is empty |
| `Adding.AddedTreeIs` | src/vault.rs:673-677 | the new tree has the old paths and those where something lands, and a path where nothing lands keeps its entry |
| `Adding.AddedFilesAre` | src/vault.rs:673-677 | the new files are the old ones and the added ones, each with the contents that landed on it last |
| `Adding.StoredSealed` | src/vault.rs:399-410 | the chunks of a stored file are stored as the parts of it, each sealed if the vault is encrypted |
| `Adding.StoredEntry` | src/vault.rs:637-664 | the entry made for a file restores to that file |
| `Reach.ClosureIsLeast` | src/vault.rs:906-952 | the commits reachable from the roots are the least set that has the roots and, with a commit, its parents |
| `Reach.MarkingEnds` | src/vault.rs:906-952 | when a mark loop runs out of work it has seen exactly the reachable commits on disk |
| `Gc.MarkChunks` | src/vault.rs:906-930 | on any graph, cyclic or with missing parents, the loop ends with the chunks of all reachable commits' trees; it fails only on a store that is not sound |
| `Gc.MarkObjects` | src/vault.rs:933-952 | the loop ends with exactly the reachable commits and the trees they name |
| `Gc.LiveChunksOfLiveTrees` | src/vault.rs:906-952 | the two loops agree: the live chunks are the chunks of the trees among the live objects |
| `Gc.CollectedExact` | src/vault.rs:961-1023 | the commits left are exactly the reachable ones if and only if every commit on disk that a live commit names as its tree is live; the trees left are exactly the live ones if and only if every tree on disk named like a live commit is live; the chunks left are always exactly the live ones |
| `Gc.CollectedIs` | src/vault.rs:961-1023 | on any disk, object by object: a commit or tree stays if a way along parents from HEAD, HEADS or the registry leads to it or to a commit that names it as its tree, a chunk if one leads to a commit whose tree has a file with it |
| `Gc.LiveIsLed` | src/policy.rs:338-353 | a commit is live if and only if such a way, through commits on disk, leads to it |
| `Gc.RootsAreKept` | src/policy.rs:338-353 | what HEAD, HEADS or the registry names, and every ancestor of it, is as complete after a collection as before and restores to the same files |
| `Gc.TreesExactOrClash` | src/vault.rs:981-1016 | in a sound store the trees left are exact unless two objects collide in one hash |
| `Gc.CollectedTwice` | src/vault.rs:1019-1023 | a second collection removes nothing |
| `Gc.CollectedClosure` | src/policy.rs:338-353 | collection changes neither the roots nor what they reach |
| `Gc.SweptRestore` | src/vault.rs:961-1023 | at any point of a sweep a reachable complete commit is complete and restores the same |
| `Gc.SweptRepresents` | src/vault.rs:961-1023 | at any point of a sweep every version is as it was |
| `Gc.VersionsAreLive` | src/vault.rs:685-692 | every version is an ancestor of HEAD |
| `Gc.SharedNameIsCollision` | src/codec.rs:37-48 | a commit and a tree under one name would be two byte strings with one hash |
| `Gc.OldHeadAfterAdopting` | src/vault.rs:1134-1147 | adopting a head leaves the old one to collection if and only if neither the new head, HEADS nor a registered snapshot leads to it or names it as a tree |
| `Witnesses.OldHeadIsLost` | src/vault.rs:1134-1140 | a vault of three commits on which adopting a head loses the old one |
| `Witnesses.NamedAsTreeStays` | src/vault.rs:933-952 | a vault in which collection keeps an unreachable commit because another names it as its tree |
| `Registry.PruneLog` | src/policy.rs:321-335 | the oldest entries beyond the retention are dropped and counted; 0 keeps all |
| `Registry.RegistryIsNewest` | src/policy.rs:298-335 | under a fixed retention r > 0 the registry is the r most recently registered distinct tips, the last one last |
| `Registry.HistoryIs` | src/policy.rs:298-315 | the history of a list of tips has each of them once, in the order of their last registration |
| `Registry.RegisterTwice` | src/policy.rs:213-216 | registering a tip again right after pruning changes nothing |
| `Vaults.Vault.constructor` | src/vault.rs:97-171 | a new vault is empty, sound and has no versions |
| `Vaults.Vault.PutChunk` | src/store.rs:45-72 | bytes are stored exactly when they hash to the name and nothing else is stored under it; a collision is refused; dedup is reported |
| `Vaults.Vault.StoreFile` | src/vault.rs:422-428 | a stored file's entry depends on its bytes alone and restores to them, only its chunks are added, and they are stored as parts of the file, sealed if the vault is encrypted |
| `Vaults.Vault.SaveTree` | src/vault.rs:430-441 | a tree within the cap is stored under its hash and loads back; otherwise nothing happens |
| `Vaults.Vault.CommitHead` | src/vault.rs:685-692 | HEAD becomes a commit with exactly the given tree, parents, message and time, with a key by that key and signed by it over its preimage, and otherwise with 64 zeros; the versions gain it |
| `Vaults.Vault.AddPath` | src/vault.rs:615-692 | it succeeds if and only if the names are good, no hashes clash among the new chunks and the stored ones, HEAD loads and the tree stays within its cap; the disk afterwards is a function of the one before in either case; HEAD is then a commit on the old HEAD, and no other, whose tree is the old tree with the entries of the added files laid over it; every path that is new is the base name or base, slash and the path of one of the files; unless its tree or commit replaces a different object the new version is the last one with these files laid over it; a failure gives its reason, and changes no version, commit or head |
| `Vaults.Vault.Snapshot` | src/vault.rs:725-746 | HEAD is a commit on the old HEAD, if any, with the same tree, or the empty one, the tip is registered and the registry pruned; it holds the files of the last version unless its tree or commit replaces a different object |
| `Vaults.Vault.MergeHead` | src/vault.rs:1174-1221 | it succeeds if and only if both heads load and the merged tree stays within its cap; HEAD and HEADS are then a commit on the old HEAD and the remote head, each named once, whose tree is the merge of their trees, ours first, with the right count; a merge of restorable heads is whole and can be restored, and without clash it restores every file of both |
| `Merging.MergeIsAs` | src/vault.rs:1184-1193 | what a merge makes of the files of the newest version and of the remote head: without clash theirs beside ours and nothing else, and with clash still something that can be restored |
| `Merging.HeadsAfterMerging` | src/vault.rs:1216-1219 | of the commits before a merge, a third head among them, those survive the merge and a collection that the old HEAD, the remote head or a registered snapshot leads to, or that one of these or the merge names as a tree, or that are the merge; and no others |
| `Witnesses.ThirdHeadIsLost` | src/vault.rs:1216-1219 | a vault with HEAD, a remote head and a third head in HEADS, in which the merge loses the third |
| `Vaults.Vault.RecordHead` | src/vault.rs:1143-1147 | HEADS gains the head and the current HEAD |
| `Vaults.Vault.SetHeadPublic` | src/vault.rs:1134-1140 | HEAD moves to a commit exactly if it loads, HEADS gains it, and a new list of versions starts there |
| `Vaults.Vault.SetDivergentHead` | src/vault.rs:1224-1233 | HEAD stays unless there was none; HEADS gains the commit |
| `Vaults.Vault.RegisterTip` | src/policy.rs:298-315 | the tip is moved to the end of the registry, and versions stay |
| `Vaults.Vault.PruneRegistry` | src/policy.rs:321-335 | the registry keeps its newest entries, and versions stay |
| `Vaults.Vault.ImportTree` | src/vault.rs:1067-1081 | exactly the wires that hash to their name, decode and re-encode to the same hash are stored |
| `Vaults.Vault.ImportCommit` | src/vault.rs:1111-1124 | exactly the wires that hash to their name, decode, re-encode to the same hash and bear 64 zeros or a signature of their author over their preimage are stored |
| `Vaults.Vault.IsComplete` | src/vault.rs:854-869 | the answer is whether the commit, its tree and all its chunks are here; no ancestor matters |
| `Vaults.Vault.ReadFile` | src/vault.rs:764-785 | the chunk loop gives the file exactly if every chunk is here, verifies, opens and re-derives to its name, and the size is the manifest's |
| `Vaults.Vault.RestoreFiles` | src/vault.rs:749-793 | the files written are exactly those the versions record; one bad file fails it all |
| `Vaults.Vault.ProtectedRoots` | src/policy.rs:338-353 | HEAD, every member of HEADS and every registered tip, and nothing else |
| `Vaults.Vault.GcChunks` | src/vault.rs:961-977 | exactly the chunks that are not live go and are counted, and the vault is valid with the same versions after each removal |
| `Vaults.Vault.GcObjects` | src/vault.rs:981-1016 | the same for commits and trees |
| `Vaults.Vault.GcAll` | src/vault.rs:1019-1023 | the disk is the collected one, and the count is what went |
| `Runs.Step` | src/vault.rs:615-1233 | every operation succeeds exactly when the disk it meets says so, changes it as `After` says, meets a hash collision exactly when `WritesCleanly` says so, and otherwise does to the list of versions what the plain list asks |
| `Runs.Run` | src/vault.rs:615-1233 | the disk and the list of versions are functions of the operations; up to the first write that would replace a different object the list is what the disk holds, and each operation did to it what `Follows` says: an add lays its files over the last version, a snapshot repeats it, a merge brings the remote in; without such a write every version is an ancestor of HEAD and restores as when it was made, and if the heads merged could be restored, every version is whole and can be restored |
| `Runs.GoodRunsRestore` | src/vault.rs:615-1233 | at every point of a run of adds, snapshots and merges of restorable heads, every version is whole and can be restored |
| `Runs.AllStand` | src/vault.rs:749-793 | every version is an ancestor of HEAD, complete if it was, and restores to its files |
| `Runs.CleanOnlyAdds` | src/vault.rs:615-1233 | any operation but a collection, unless it writes an object in place of a different one, leaves every object that was there |
| `Network.FirstGood` | src/network.rs:637-655 | whatever is fetched comes from one of the peers, hashes to its name and is within the size limit |
| `Network.HonestPeerSuffices` | src/network.rs:637-655 | with one peer that always has the blob the failover succeeds, wherever the peer stands and whatever the others answer |
| `Network.Net.GetBlob` | src/network.rs:603-655 | the loop takes the first good answer in the order of the peers; every request and answer is logged, what is taken is a logged answer of a listed peer, and if nothing is taken every peer was asked and failed |
| `Sync.Engine.LoadJob` | src/sync.rs:79-90 | an unfinished checkpoint of this target is the job resumed, and otherwise one that lists nothing is; what was right about the checkpoints stays right |
| `Sync.Engine.Persist` | src/sync.rs:92-101 | the checkpoint is replaced as a whole, or the process died and the old one is there |
| `Sync.Engine.FetchCommit` | src/sync.rs:160-175 | afterwards the commit is here if the checkpoints were right; the only new object is this commit, as a peer gave it; an error is a commit every peer was asked for and failed to give, or bytes a peer gave that are no good commit |
| `Sync.Engine.FetchTree` | src/sync.rs:182-192 | the same for the commit's tree |
| `Sync.Engine.FetchChunks` | src/sync.rs:194-211 | the same for every chunk in the list; the checkpoint lags by no more than the chunks since the last multiple of 32, and a crash loses the record of at most 32 |
| `Sync.Engine.Visit` | src/sync.rs:152-211 | after a successful visit the commit is complete, it has at most 16 parents, the counts are what was stored, and all of it is this commit, its tree and its chunks, as peers gave them; nothing that the job listed as done is stored |
| `Sync.Engine.WalkDag` | src/sync.rs:151-212 | the loop ends within 1 + 16 * (MAX_JOB_COMMITS + 1) turns; on success the target and all its ancestors are complete; past the first turn the target is complete even on failure; every new object was wanted and given by a peer; every error is explained |
| `Sync.Engine.AdoptHead` | src/sync.rs:225-229 | HEAD and then HEADS are written, and dying in between leaves one of two states |
| `Sync.Engine.FetchJob` | src/sync.rs:151-250 | success records a finished job and a complete target with its whole line; failure leaves HEAD alone |
| `Sync.Engine.FetchDag` | src/sync.rs:114-250 | on every exit the store is sound and only grew by objects that were wanted and that a peer gave under their names, checkpoints claim only what is there, HEAD is unmoved or at the complete target; success off the fast path means every ancestor is here and the job is done; every stored commit with a signature verifies; every error is explained and leaves the job failed, and one that is not about the target itself leaves the target complete; what the job lists as done is not fetched, so a stuck checkpoint makes the fetch fail and stays stuck; on the fast path nothing is asked and the line is whole if and only if it was |
| `Sync.SourcedVisit` | src/sync.rs:160-211 | a visit to a wanted commit adds only wanted objects |
| `Sync.TrackEnd` | src/sync.rs:151-212 | with nothing queued, what was visited is the target and all its ancestors |
| `Sync.WholeGrows` | src/sync.rs:151-212 | a whole line stays whole when objects are added |
| `Sync.StaysStuck` | src/sync.rs:79-250 | when objects are added but none that the job lists, and the job goes on listing them, a stuck checkpoint stays stuck |
| `Resume.Attempts` | src/sync.rs:79-250 | a run of fetches of any targets, cut short or not, and any operations but collections between them, goes through the points that `Happens` allows from one to the next: each fetch with its result, each operation with its disk; the checkpoints are right at the end, and the line of every target that a fetch off the fast path has brought is whole, unless an operation writes an object in place of a different one |
| `Resume.WholeForGood` | src/sync.rs:79-250 | once a fetch that began with an incomplete target has succeeded, every ancestor of that target is here at every later point |
| `Resume.JobsStayOk` | src/sync.rs:79-250 | no checkpoint claims what is not there, at any point of such a run |
| `Resume.OneFetch` | src/sync.rs:79-250 | one process with one fetch does and returns what `Fetches` says: success off the fast path brings the whole line, an error is explained, and HEAD moves only to a complete target |
| `Resume.JobSurvivesGc` | src/policy.rs:338-353 | a collection between attempts leaves a checkpoint right if and only if everything it lists is live |
| `Resume.StrandedByGc` | src/sync.rs:79-212 | a collection leaves the fetch of a target that a right checkpoint lists stuck if and only if the target is no longer live, or is kept without its tree or a chunk that the checkpoint lists; never if the target is reachable |
| `Resume.FastPathLeavesGaps` | src/sync.rs:126-137 | there is a sound disk on which a commit is complete and its line is not, for any hash function |
| `Gaps.ResumeAdoptsAGap` | src/sync.rs:126-137 | a run: the first fetch fails on a parent nobody has, the second finds the target complete, succeeds without asking anyone and makes it HEAD, and the parent is still missing |
| `Gaps.CollectionStrandsAJob` | src/sync.rs:197-199 | a run: the first fetch fails on the parent, a collection takes the target, and the second fetch fails whoever is asked and whatever is answered, because the checkpoint lists the target as done |
| `Provide.CollectChunks` | src/vault.rs:1276-1282 | every chunk not yet emitted is emitted under its hash |
| `Provide.CollectCommit` | src/vault.rs:1259-1283 | a commit brings itself, its tree and the tree's chunks, and exactly these names; a tree whose name was collected before, be it as a chunk, brings nothing |
| `Provide.CollectedExactly` | src/vault.rs:1259-1283 | on a walk through complete commits everything asked for is collected if and only if the chunks of every tree that is skipped, because its name was first collected as something else, turn up elsewhere on the walk |
| `Provide.CollectProvide` | src/vault.rs:1239-1286 | every item is genuine; on a complete line collecting succeeds if and only if it has at most MAX_JOB_COMMITS commits, the items are those of the breadth-first walk from the target, which goes through the line, and they are all that the line asks for if and only if the chunks of trees that this walk skips turn up elsewhere on it |
| `Gaps.ProviderOmitsAChunk` | src/vault.rs:1272 | a vault whose tip has the parent's tree as a file: the parent's chunk is asked for and not among the items |
| `Provide.ApartSkipsNothing` | src/vault.rs:1272-1283 | if no tree of the line is named like a chunk or a commit of the line, no tree is skipped |
| `Provide.StillAgree` | src/sync.rs:160-211 | a fetcher that agrees with the provider on shared names still does after a fetch in which no answer collides with the provider's objects |
| `Provide.LineWithin` | src/sync.rs:151-212 | a fetcher that agrees with the provider on shared names never leaves the provider's line |
| `Provide.SameAsked` | src/sync.rs:160-211 | what such a fetcher asks for on behalf of a commit is what the provider names for it |
| `Provide.HandingOutServes` | src/network.rs:309-336 | a peer that answers requests with what was collected, if nothing of it is too large, serves it |
| `Provide.OnlyCrashes` | src/sync.rs:114-250 | against a complete offer from one honest peer, every explained error but a crash is impossible |
| `Provide.Transfer` | src/sync.rs:114-250 | a provider offers its line exactly if it has at most MAX_JOB_COMMITS commits, and all of it exactly if the chunks of skipped trees turn up elsewhere, so if no tree is named like a chunk; with one peer that serves the offer, and no hash that collides among what the run touches, a process that does not die fetches the target, and nothing but its death makes the fetch fail |
| `Announce.Node.NextAnnounceSeq` | src/network.rs:351-357 | the counter of the vault, and no other, goes up by one, from 2^64 - 1 to 0, and is what is returned |
| `Announce.Node.Validate` | src/network.rs:457-491 | accepted exactly when signature, version, skew, vault, membership and sequence are right; each rejection is given exactly when its check is the first to fail, in the source's order; on acceptance the counter is the sequence number, and otherwise nothing has changed |
| `Announce.IsMemberExact` | src/vault.rs:887-897 | a node is a member if and only if the list is empty or has its hexadecimal digits, in either case of letters |
| `Announce.VerifiedWasIssued` | src/identity.rs:107-124 | what verifies under an honest key is an announcement that node issued: no commit it signed can pass for one |
| `Announce.StepKeeps` | src/network.rs:351-491 | issuing, signing a commit and receiving anything at all keep the invariant of the protocol |
| `Announce.ReplayProtocol` | src/network.rs:457-491 | at every point of every run accepted numbers per receiver, vault and announcer strictly increase, nothing is accepted twice, what is accepted in an honest name was issued, and a counter for an honest announcer is a number it issued |
| `Announce.NextGetsThrough` | src/network.rs:351-491 | until a counter runs over, an honest node's next announcement passes every receiver's replay check if and only if its own counter does not run over with it |
| `Placement.FreshnessExact` | src/replication.rs:252-254 | the freshness part is between -100 and 100 if and only if the age survives the cast to a signed number |
| `Placement.FreshnessFalls` | src/replication.rs:252-254 | freshness starts at 100, falls by one every 36 seconds, and stays at -100 from 7200 seconds on |
| `Placement.PreferredExact` | src/replication.rs:236-240 | a peer is preferred if and only if the list has it, or what is left of it when trimmed, in either case of letters, or a part of it |
| `Placement.ScoreShows` | src/replication.rs:239-274 | which of the known data a score goes by, the full name before the trimmed one |
| `Placement.ScoreDifferences` | src/replication.rs:239-274 | what preference, having the head and being alive or dead add or take, all else alike |
| `Placement.LaterSeenRanksHigher` | src/replication.rs:252-254 | of two peers alike in all else the one seen later has no lower score |
| `Placement.ScoreFits` | src/replication.rs:244-274 | no score overflows 64 bits |
| `Placement.ScoreBand` | src/replication.rs:239-274 | every score lies in the range of its preference and liveness |
| `Placement.RankPeers` | src/replication.rs:216-288 | the ranking is a permutation of the scored peers in the comparator's order |
| `Placement.RankingInBands` | src/replication.rs:216-288 | while ages are sound, as all are before second 2^63, every preferred peer precedes every other, and within each class those last probed dead come last |
| `Placement.WrappedAgeBreaksBands` | src/replication.rs:252-254 | at 2^63 a peer seen at time 0 outranks a preferred one |
| `Placement.RankingIgnoresOrder` | src/replication.rs:286-308 | the failover order does not depend on how the peers are listed |
| `Schedule.CountdownExact` | src/policy.rs:186-242 | a snapshot is due if and only if the countdown is 0, and a positive countdown names the first second at which it will be |
| `Schedule.DueExact` | src/policy.rs:186-194 | a snapshot is due if and only if there is an interval and none was taken or the clock is at least an interval past the last |
| `Schedule.WindowBound` | src/policy.rs:186-194 | times at least an interval apart number at most 1 + span / interval in any window |
| `Schedule.AlwaysDue` | src/policy.rs:190-192 | a snapshot is due at every time exactly in the state that a clock at 0 leaves |
| `Schedule.Scheduler.MaybeAutoSnapshot` | src/policy.rs:197-222 | a snapshot is taken exactly when one is due and there is a HEAD; then disk, tip, registry and state are as `Snapped` says and the version repeats the last one's files, unless a write replaces a different object; otherwise nothing changes |
| `Schedule.Scheduler.RunTick` | src/schedule.rs:21-45 | a tick takes a snapshot exactly when due, never finds anything left to prune, collects after a snapshot, and loses no version |
| `Schedule.Scheduler.ForceAutoSnapshot` | src/schedule.rs:68-86 | a forced snapshot needs a HEAD alone, is registered, adds a version with the last one's files unless a write replaces a different object, and pushes the next scheduled one back |
| `Schedule.ScheduleBound` | src/schedule.rs:21-86 | at any point of any run of ticks and forced snapshots on a clock that is positive and never goes back, the scheduled snapshots in a window number at most 1 + span / interval |
| `Schedule.ScheduleRegistry` | src/policy.rs:298-335 | at any point of any such run the registry is the newest distinct tips, newest last |
| `Schedule.RunSchedule` | src/schedule.rs:21-86 | a run of ticks and forced snapshots leaves disk, state, tips and times as `After` says, adds one version for each snapshot and loses none, and the new ones repeat the files of the last one unless a write replaces a different object |

## Left out

- Legacy JSON objects (`.json` files, `legacy_json_hash`, dual reads): only framed wire objects are modelled, and bytes without the right domain are refused.
- Cryptography (encryption, key wrapping, signatures, the hash function) and the choice of chunk boundaries: abstract, with the trusted contracts above.
- The transport: endpoints, gossip, the blob store, tickets, discovery and probes. Messages and blobs come from parameters.
- The file system: I/O errors, torn writes of `fs::write`, bit rot and tampering, path resolution in `safe_join`, a path that is both a file and a folder. A write happens or does not, and restoring gives a map from paths to bytes.
- HEAD, HEADS and registry files as text: they are values.
- The texts of commit messages: parameters. Timestamps and texts in registry entries and sync jobs.
- Entries of kind `Dir` are opaque leaves, as they are to the program.
- `Tree::merge`, `add_dir` and the infallible `add_file`, which no modelled operation calls.
- Memory limits: `Vec::with_capacity` on counts read from the wire, and `pos + n` in the cursor, which is over natural numbers here. Lengths beyond 64 bits are an error of the encoders instead of being impossible.
- Legacy announcements by vault name, and the listening loops.
- The command line, the session facade, health reports, diffs, watching, invites, pins and have-lists (they enter the ranking as parameters).
- Policy validation and storage: the scheduler has one fixed policy, the one the vault prunes by.
- `run_for`: a loop around `run_tick` with a timer.
- `ingest_commit_from_peer`: the same imports as a fetch, without parents.
- Vaults.Vault.AddPath: the order in which a folder's files are found is a parameter, and a file has at most 2^64 - 1 bytes.
- Runs.Run: `set_head_public` is not among the operations, because it gives up the line of versions; `Vaults.Vault.SetHeadPublic` says that a new list starts there.
- Sync.Engine.FetchDag: the error texts and time stamps of a job are not modelled; errors carry the objects they are about instead.
- Schedule.Scheduler.RunTick: pins are not modelled.
