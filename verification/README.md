# ScorpionOS core algorithms, modelled and proved in Dafny

This project models the self-contained algorithmic cores of the ScorpionOS kernel and proves what
they promise. `dafny verify dfyconfig.toml` checks all of it. Every core is a module or a short
chain of modules:

| core | modules |
|---|---|
| DEFLATE inflater of the PNG viewer | BitStream, Deflate, Inflate, InflateRoundTrip, InflateVectors |
| PNG scanline filters | PngFilter |
| ScorpionFS in memory | FsTree, FsPaths, ScorpionFs |
| ScorpionFS on disk | DiskFormat, DiskOrder, DiskImage, DiskLoad, SfsDisk, SfsDefaults |
| heap allocator | HeapLayout, Kmalloc |
| AES-128-CBC | ByteBits, AesTables, AesField, Aes, AesCbc, AesValues, AesSbox, AesVectors |
| MBF batch interpreter | MbfLang, MbfTable, MbfProof, MbfFits, MbfLeaves, Mbf |
| thread table and two-processor hand-off | Scheduler, Smp, SmpCalls |
| SHA-1, HMAC, big-number product | Sha1Spec, Sha1, Sha1Vectors, Bignum |
| Internet checksum | Checksum |
| passwd records | PasswdFormat, PasswdLines, Auth |
| run-length and base64 codecs | RunLength, Base64 |

Code that the kernel writes as loops over buffers, tables and globals is a class or a method here,
with the same loops, and is proved equal to a function of its inputs or of the old state. The laws
are then lemmas about those functions, against a description written from the other side: an
encoder for a decoder, a tree semantics for a line interpreter, a list of blocks for words in an
arena, a map from paths to contents for linked nodes, a standard's formula for a streaming loop.
Where both sides use the same constants, these are tied to the standard a second time: tables to its
formulas, S-box entries to inverses in the field, and whole functions to its published examples.

## What is proved

- **Inflater.** For every sequence of stored and fixed-Huffman blocks, any length and distance codes
  and extra bits in them, any two header bytes, any bits before a stored block's first byte and any
  trailing bytes, inflating the encoding gives the LZ77 expansion, overlapping copies included. The
  fixed code is the canonical one, the length and distance tables are the standard's formulas, and
  on any input only lengths 3-258 and distances 1-32768 are read. The bit reader keeps fewer than
  eight bits between reads, which is why a stored block realigns. On every byte string the block loop
  ends, because a header read past the end is a stored block without a length word.
- **Heap.** One array of words holds headers and payloads. In every state reachable by allocating
  and freeing, the headers tile the arena, no two neighbours are both free, live payloads are
  aligned and apart, and no call changes a word of another live payload. What was handed out may be
  freed until it is. Allocation fails exactly
  when no gap is large enough, and freeing everything in any order restores the initial block.
- **ScorpionFS.** The tree invariant (lists spelled out by links, unique sibling names) is kept by
  mkdir, create, write and delete; each changes the path map in exactly one place. Resolving a
  printed path finds the node it was printed for; a relative path is looked up from the current
  directory, and resolving one path after another is resolving both joined by a slash. Syncing and mounting again gives the same path
  map exactly when the default entries were present: the loader re-creates missing ones.
- **AES.** `InvCipher` inverts `Cipher` for any round keys, from the tables up; decrypting undoes
  encrypting for every key, IV and number of blocks; splitting a buffer at any block boundary
  changes neither the ciphertext nor the final IV. The 176 bytes of the key schedule are those of
  section 5.2 of FIPS 197, all 256 entries of the S-box are affine images of inverses in the field,
  and the routines give the ciphertext of appendix C.1.
- **MBF.** The interpreter runs over the memory of its variable table. For every program tree whose
  run stores no name of 32 and no value of 128 characters or more, running its printed text has the
  variables and command trace of the tree, whatever the table held before; a condition on the text of
  the `set` commands guarantees that (`MbfFits.FittingScriptRuns`). A command of words and variables is
  read as their values, and `set` is a store that gives back what was stored last. The interpreter
  terminates on every script, balanced or not.
- **Scheduling and hand-off.** Over every run only the current thread is running, a zombie is never
  picked, none sleeps, a ready thread d places away becomes current within d calls, and a thread that
  is preempted is current again within 64 calls unless it exits. Over every interleaving
  of two processors the executed work is the dispatched work, in order, lagging by at most one; a
  waiting call that has returned has had its work run, and one that does not wait comes back by
  itself; the busy flag can come up again exactly when no null function is on its way.
- **Hashing and arithmetic.** SHA-1 fed in any pieces is the standard's digest of their
  concatenation, and the digest of "abc" is the published one; HMAC follows; the 256-byte product is exact in 16-bit accumulators; a stored
  checksum always checks to zero.
- **Text formats.** An added user is found with the same fields and password; both codecs are
  undone by their decoders.

## Where the code and what is said about it differ

- `auth.h` says `auth_add_user` adds or overwrites an entry. The code only appends, and the first
  record of a name decides, so an existing record stays in force (`PasswdFormat.AppendedIsFound`, and
  `PasswdFormat.SecondRecordIsIgnored` for a file where that happens).
- When the allocation inside `sfs_write_file` fails, `auth_add_user` has emptied the passwd file and
  still returns 0 (`Auth.AddWithoutRoom`).
- `set` in an MBF script copies names and values of any length into table entries of 32 and 128
  characters. A longer value runs into the next entry, and the next new variable cuts it
  (`MbfTable.NextNameCutsValue`); `MbfFits.OverlongDiffers` gives programs whose text then does not do
  what their tree means.
- An MBF comparison with a variable that is unset compares with `{`, the token that follows it: two
  unset variables compare as different, and a stored `{` equals an unset variable
  (`MbfProof.UnsetVariablesDiffer`, `MbfProof.StoredBraceEqualsUnset`, and `MbfProof.RefTest` for
  exactly when such a comparison means what it says).
- A mount re-creates default directories and `/etc/version` that had been removed before the sync
  (`SfsDisk.Store.SyncAndMount`; `SfsDefaults.MissingDefaultReturns` deletes one and gets it back).
- A comment in the passwd file is cut into lines of 255 characters like everything else, so what
  stands behind the first 255 is read as a record (`PasswdLines.CommentSkipped`,
  `PasswdLines.LongCommentIsRecord`), and a record added behind a last line without its newline is lost
  in it (`PasswdLines.LostInLastLine`).
- The ICMP reply in `drivers/net.c:533-539` computes the IP checksum without clearing its field in
  freshly allocated memory; `Checksum.StaleWord` says when such a checksum is right.
- Dispatching a null function to the second processor leaves the busy flag down for good
  (`Smp.FlagReturnsIff`, `Smp.NullDispatchSticks`). What has been dispatched before is still run once
  and in order: the safety results hold with null functions too.
- Rounding a request above 2^32 - 8 bytes wraps (`HeapLayout.RoundedIsEnough`,
  `HeapLayout.RoundingWraps`).
- The comment on the 9-bit codes in `shell/draw.c:53` names symbols 256-279; the code decodes
  144-255, as RFC 1951 has it.

## Model

| member | source | states |
|---|---|---|
| InflateRoundTrip.InflateInvertsDeflate | shell/draw.c:95-121 | inflating any encoding of valid blocks, with any codes and extra bits that denote their lengths and distances, yields exactly their expansion at the front of the buffer, the rest untouched, whatever follows the last block |
| InflateRoundTrip.BlocksDecode | shell/draw.c:99-119 | the block loop decodes a block sequence starting at any bit position onto any output written so far |
| InflateRoundTrip.StoredDecodes | shell/draw.c:102-111 | a stored block is realigned to a byte, whatever the skipped bits are, and copied whole |
| InflateRoundTrip.TokensDecode | shell/draw.c:69-93 | a fixed-Huffman block yields the expansion of its tokens |
| InflateRoundTrip.PairReads | shell/draw.c:76-85 | a length and distance written with any codes and extra bits is read back as what these denote by the standard's formulas |
| InflateRoundTrip.PairRange | shell/draw.c:76-85 | on any input a pair that is read has a length of 3-258, a distance of 1-32768 and a length symbol up to 285, which stands for 258 without extra bits |
| InflateRoundTrip.LengthTable | shell/draw.c:64-65 | the bases and extra-bit counts of lengths are the formulas of section 3.2.5 of RFC 1951 |
| InflateRoundTrip.DistanceTable | shell/draw.c:66-67 | the bases and extra-bit counts of distances are the formulas of section 3.2.5 of RFC 1951 |
| InflateVectors.LettersInflate | shell/draw.c:95-121 | a six-byte stream with length symbol 285 inflates to 259 letters a, whatever its header and whatever follows |
| InflateRoundTrip.SymbolDecodes | shell/draw.c:52-62 | the fixed code is prefix-free: each of the 288 codes decodes to its symbol and consumes its length |
| InflateRoundTrip.MatchCopiesBack | shell/draw.c:86-90 | the in-place copy loop appends the bytes found `distance` back, also when they overlap |
| Deflate.CopyIsPeriodic | shell/draw.c:86-90 | every copied byte equals the one `distance` before it in the result |
| Deflate.FixedCodeIsCanonical | shell/draw.c:52-62 | the fixed code is the one that section 3.2.2 of RFC 1951 makes from its code lengths, and complete |
| Deflate.CopyRange | shell/draw.c:64-67 | whatever codes and extra bits denote is a length of 3-258 and a distance of 1-32768 |
| Deflate.LengthFits | shell/draw.c:64-65 | every length from 3 to 258 has a code and extra bits that fit |
| Deflate.DistanceFits | shell/draw.c:66-67 | every distance from 1 to 32768 has a code and extra bits that fit |
| BitStream.PackAt | shell/draw.c:41-49 | packed bits are read back in order from the packed bytes, whatever follows |
| BitStream.SplitBuffer | shell/draw.c:46-47 | masking and shifting the bit buffer gives the next field and leaves the following bits |
| BitStream.FetchByte | shell/draw.c:42-45 | adding a byte above the buffered bits extends the buffered field; past the end zeros extend it |
| Inflate.Inflater.ReadBits | shell/draw.c:41-49 | returns the next n bits of the input as a number and leaves fewer than 8 bits buffered |
| Inflate.Inflater.DecodeLitFixed | shell/draw.c:52-62 | returns the symbol whose code stands at the current bit and moves past it |
| Inflate.Inflater.ReadDistanceCode | shell/draw.c:80-83 | the reversed five bits are the code read most significant bit first |
| Inflate.Inflater.CopyBytes | shell/draw.c:86-90 | the guarded byte loop has the effect of the match copy, clipped at the buffer's end |
| Inflate.Inflater.InflateFixedBlock | shell/draw.c:69-93 | terminates and decodes the block at the current bit, failing on unassigned codes |
| Inflate.Inflater.InflateStoredBlock | shell/draw.c:103-111 | drops the buffered bits and copies the stored bytes, failing without a length word |
| Inflate.Inflater.ZlibInflate | shell/draw.c:95-121 | terminates on every input; the result and the buffer are those of the block sequence, -1 on every error |
| Inflate.PastEndHeader | shell/draw.c:99-105 | a block header read past the end is a stored block that fails its length check |
| Inflate.DecodeSymbol | shell/draw.c:52-62 | the decoded symbol's own code word stands at the position, and past the end it is end-of-block |
| Inflate.Blocks | shell/draw.c:99-119 | each block moves the bit position forward and keeps the buffer's length |
| PngFilter.PaethIsNearest | shell/draw.c:129-137 | the predictor is the neighbour nearest to a + b - c, left before above before corner |
| PngFilter.FilterSums | shell/draw.c:209-215 | each original byte is its filtered byte plus what RFC 2083 takes from the neighbours: none, left, above, the mean rounded down, or the nearest |
| PngFilter.EveryImage | shell/draw.c:197-216 | every array of the right length is the filtered form of some image, so the loop restores any input |
| PngFilter.UnfilterRow | shell/draw.c:207-216 | restores one filtered line in place from the line above, touching nothing else |
| PngFilter.Restore | shell/draw.c:209-215 | one byte gets its original value back under each filter type |
| PngFilter.Unfilter | shell/draw.c:197-216 | for any size, pixel width and choice of filters per line, the filtered image becomes the original |
| FsTree.LookupPath | fs/sfs.c:81-89 | a node's own path leads back to it exactly when all its proper ancestors are directories |
| FsTree.LookupIsPath | fs/sfs.c:81-89 | whatever a path leads to has that path |
| FsTree.AddKeepsTree | fs/sfs.c:92-96 | linking a new node at the front of a child list keeps the tree invariant |
| FsTree.AddChangesView | fs/sfs.c:98-123 | adding a node adds its path and changes no other; under an unreachable parent it changes nothing |
| FsTree.RewriteKeepsTree | fs/sfs.c:126-138 | replacing a node's content keeps the tree invariant |
| FsTree.RewriteChangesView | fs/sfs.c:126-138 | new content shows under the file's own path only |
| FsTree.RemoveKeepsTree | fs/sfs.c:140-155 | unlinking a childless node from any place in the list keeps the tree invariant |
| FsTree.RemoveChangesView | fs/sfs.c:140-155 | deleting a node takes away exactly its own path |
| ScorpionFs.FileSystem.AllocNode | fs/sfs.c:30-41 | hands out the lowest free slot, cleared, or none when all are used |
| ScorpionFs.FileSystem.FindChildByName | fs/sfs.c:81-89 | the walk over sibling links finds the first child of that name |
| ScorpionFs.FileSystem.Mkdir | fs/sfs.c:98-107 | makes a directory exactly when the name is free and a slot is left, else changes nothing |
| ScorpionFs.FileSystem.CreateFile | fs/sfs.c:109-123 | makes a file exactly when the name is free and a slot is left, else changes nothing |
| ScorpionFs.FileSystem.WriteFile | fs/sfs.c:126-138 | overwrites an existing entry's content or creates the file |
| ScorpionFs.FileSystem.Delete | fs/sfs.c:140-155 | removes a childless node, refusing null and the root |
| ScorpionFs.FileSystem.PreviousSibling | fs/sfs.c:147-148 | the walk stops at the node linked to the one being deleted |
| ScorpionFs.FileSystem.Init | fs/sfs.c:55-76 | afterwards the paths are the root, five directories and /etc/version |
| ScorpionFs.FileSystem.Resolve | fs/sfs.c:158-184 | follows a path component by component with its 64-byte buffer, from the root or from the current directory, to the node that the laws of FsPaths describe |
| ScorpionFs.FileSystem.PathInto | fs/sfs.c:197-217 | writes the node's path, cut to the buffer and terminated |
| FsPaths.ClippedFits | fs/sfs.c:210-216 | a path that fits the buffer is printed whole |
| FsPaths.WalkPrinted | fs/sfs.c:168-182 | walking a printed list of legal names looks them up one after the other |
| FsPaths.ResolveUndoesPath | fs/sfs.c:158-217 | resolving a printed path from any current directory gives the node, or nothing when an ancestor is no directory |
| FsPaths.RelativeResolves | fs/sfs.c:160-182 | a relative path of legal names leads where looking the names up from the current directory leads |
| FsPaths.ResolveComposes | fs/sfs.c:158-184 | resolving two paths joined by a slash is resolving the second from where the first leads |
| FsPaths.ResolveSteps | fs/sfs.c:174-181 | behind any path two dots go to the parent, or stay at the root, one dot and a last slash stay, and a name goes to its child; the same without a path in front |
| FsPaths.DoubledSlash | fs/sfs.c:164-174 | a doubled slash anywhere counts as one |
| FsPaths.ClippedBegins | fs/sfs.c:210-216 | what is printed of a path that does not fit is a beginning of it that fills the buffer up to one character |
| FsPaths.PrintedPathResolves | fs/sfs.c:158-217 | the same for the text that sfs_path leaves in a buffer it fits |
| FsPaths.PrintedParts | fs/sfs.c:164-173 | no component of a printed path is longer than the longest name on it |
| ScorpionFs.FileSystem.PathThenResolve | fs/sfs.c:158-217 | printing a node's path into a buffer and resolving the buffer's text finds the node from any current directory, exactly when its ancestors are directories |
| DiskFormat.RecordReads | fs/sfs_disk.h:44-52 | a node record written to 128 bytes is read back field by field, its name terminated |
| DiskFormat.RecordLayout | fs/sfs_disk.h:44-52 | which byte of a record holds which byte of which field, numbers least significant byte first, all else zero |
| DiskFormat.SuperStarts | fs/sfs_disk.h:31-41 | the first eight bytes of every superblock |
| DiskFormat.LittleEndian32 | fs/sfs_disk.h:31-41 | byte i of a stored number is its i-th digit in base 256 |
| DiskFormat.SuperReads | fs/sfs_disk.h:31-41 | all seven fields of the superblock are read back |
| DiskOrder.ServingStep | fs/sfs_disk.c:57-63 | queueing the next child keeps entries distinct, parents first and by smaller index |
| DiskOrder.FilledEnumerates | fs/sfs_disk.c:50-66 | when the queue is used up or full it holds every reachable node |
| DiskImage.BlockHolds | fs/sfs_disk.c:111-115 | the block number given in the table pass is where the data pass puts that file's content |
| SfsDisk.Store.Enumerate | fs/sfs_disk.c:40-67 | fills the queue with every reachable node, once, each after its parent |
| SfsDisk.Store.FillSector | fs/sfs_disk.c:92-116 | one sector holds the records of its four nodes, zeros past the last |
| SfsDisk.Store.SyncTable | fs/sfs_disk.c:91-122 | the 128 table sectors hold all records, blocks numbered as files with content come |
| SfsDisk.Store.SyncData | fs/sfs_disk.c:124-144 | the data region holds the padded contents in the same order |
| SfsDisk.Store.Sync | fs/sfs_disk.c:72-166 | leaves an image of the tree on the disk, touches no sector outside it, and fails only past the disk's end |
| DiskLoad.PutLoads | fs/sfs_disk.c:243-279 | taking the next record restores its path and keeps what was restored before |
| DiskLoad.SlotFree | fs/sfs_disk.c:256-277 | a record whose path is not there yet finds a free slot among the 512 |
| DiskLoad.AllLoaded | fs/sfs_disk.c:225-282 | with all records taken, every path shows what it showed in the synced tree |
| DiskLoad.PutKeepsDefaults | fs/sfs_disk.c:250-278 | no step of a load removes a default entry or changes its kind |
| DiskLoad.ImageEntry | fs/sfs_disk.c:233-238 | each slot of a synced table holds the record of its node, and the disk its content |
| SfsDisk.Store.ReadBlock | fs/sfs_disk.c:264-274 | eight sector reads give the block's sectors in order, or an error exactly when one lies past the disk's end |
| SfsDisk.Store.ReadContent | fs/sfs_disk.c:260-277 | the content a record describes, and nothing when its block cannot be read |
| SfsDisk.Store.LoadEntry | fs/sfs_disk.c:238-280 | one record extends the node map and the tree by its node |
| SfsDisk.Store.LoadTable | fs/sfs_disk.c:225-283 | the two nested loops take the records in order up to the last |
| SfsDisk.Store.Load | fs/sfs_disk.c:171-290 | a bad superblock or no memory changes nothing; an image of a tree with its default entries is restored; default entries are there after every mount |
| SfsDisk.Store.SyncAndMount | fs/sfs_disk.c:72-290 | sync and mount give the same path map if and only if the default entries were there, which they are afterwards |
| SfsDefaults.MissingDefaultReturns | fs/sfs_disk.c:218-221 | a reachable state that is not restored: /tmp is deleted, synced without, and back after the mount |
| HeapLayout.RoundedIsEnough | kernel/kmalloc.c:38-40 | rounding gives at least the request exactly for requests up to 2^32 - 8 |
| HeapLayout.RoundingWraps | kernel/kmalloc.c:38-40 | a request of 2^32 - 1 bytes is rounded to 8 |
| HeapLayout.RunKeepsTiles | kernel/kmalloc.c:34-91 | in every state of every run the blocks tile the arena, aligned, no two neighbours free |
| HeapLayout.RunConserves | kernel/kmalloc.c:34-107 | free bytes, live bytes and 8 per block always add up to the arena |
| HeapLayout.AllFreedIsInitial | kernel/kmalloc.c:67-91 | when nothing is live any more, in whatever order it was freed, one block is left |
| HeapLayout.AllocFailsIffNoGap | kernel/kmalloc.c:42-57 | no block is found exactly when no gap between live blocks holds the request and a header |
| HeapLayout.AllocAddsOne | kernel/kmalloc.c:44-54 | an allocation adds one live block, less than 16 bytes larger than asked for |
| HeapLayout.AllocIsDisjoint | kernel/kmalloc.c:44-54 | the new block keeps a header's distance from every live block |
| HeapLayout.ReleaseRemovesOne | kernel/kmalloc.c:72-90 | freeing takes exactly that block from the live set |
| HeapLayout.LiveDisjoint | kernel/kmalloc.c:34-91 | live payloads never overlap |
| HeapLayout.LiveAligned | kernel/kmalloc.c:39-40 | live payloads start at multiples of 8 |
| Kmalloc.PayloadWriteKeepsHeaders | kernel/kmalloc.c:19-22 | an owner writing its payload disturbs no header in the same array |
| Kmalloc.HoldsSplice | kernel/kmalloc.c:46-53 | replacing a run of headers by another of the same extent leaves the rest readable |
| Kmalloc.Heap.Kmalloc | kernel/kmalloc.c:34-58 | returns the first fit and carves it, or null exactly when there is no gap; what it returns is live and may be freed; other live payloads keep every word |
| Kmalloc.Heap.LiveIsFreeable | kernel/kmalloc.c:67-73 | every member of the live set is a pointer that kfree may be given and releases |
| Kmalloc.Heap.FindFree | kernel/kmalloc.c:42-56 | the header walk finds the first free block that is large enough |
| Kmalloc.Heap.Kfree | kernel/kmalloc.c:67-91 | releases a live block and merges free neighbours, ignores pointers that are not live, and keeps live payloads |
| Kmalloc.Heap.CoalesceForward | kernel/kmalloc.c:76-90 | one pass over the headers merges every run of free blocks |
| Kmalloc.Heap.FreeByteCount | kernel/kmalloc.c:98-107 | the walk adds up the free payload bytes |
| AesTables.RsboxInvertsSbox | crypto/tiny_aes.c:14-50 | the inverse table undoes the S-box for all 256 bytes |
| AesField.UnmixedInvertsMixed | crypto/tiny_aes.c:109-135 | InvMixColumns undoes MixColumns on every column |
| AesField.MixedIsMatrixRow | crypto/tiny_aes.c:115-124 | the xtime formula is the row 2 3 1 1 of the standard's matrix |
| AesCbc.RconIsPower | crypto/tiny_aes.c:52-54 | the round constants used are the powers of 2 in the field |
| Aes.ShiftRowsInverse | crypto/tiny_aes.c:94-107 | InvShiftRows undoes ShiftRows |
| Aes.InvRoundUndoesRound | crypto/tiny_aes.c:137-151 | an inverse round undoes a round under any round key, the steps being taken in another order |
| Aes.InvCipherInvertsCipher | crypto/tiny_aes.c:137-151 | InvCipher inverts Cipher on every state for any round keys |
| AesCbc.DecryptedInvertsEncrypted | crypto/tiny_aes.c:164-184 | chained decryption undoes chained encryption for every IV and number of blocks |
| AesCbc.EncryptionSplits | crypto/tiny_aes.c:164-173 | encrypting in two calls gives the ciphertext of one |
| AesCbc.EncryptionSplitsChain | crypto/tiny_aes.c:172 | the IV carried over two calls is that of one |
| AesCbc.DecryptionSplits | crypto/tiny_aes.c:175-184 | decrypting in two calls gives the plaintext of one |
| AesSbox.SubIsAffineInverse | crypto/tiny_aes.c:14-31 | every S-box entry is the affine map of its index's inverse in the field |
| AesVectors.ExampleCipher | crypto/tiny_aes.c:137-143 | under any schedule of the key of appendix C.1 of FIPS 197, its plaintext gives its ciphertext |
| AesVectors.RunExample | crypto/tiny_aes.c:59-143 | key expansion and encryption in place give the ciphertext of appendix C.1 |
| AesCbc.EncryptedBlocks | crypto/tiny_aes.c:164-173 | each ciphertext block is the cipher of the plaintext block combined with the ciphertext block before it, or the IV |
| AesCbc.DecryptedBlocks | crypto/tiny_aes.c:175-184 | each plaintext block is the deciphered block combined with the ciphertext block before it, or the IV |
| AesCbc.KeyExpansion | crypto/tiny_aes.c:59-79 | the 176 bytes start with the key, and each later word is made from the words one and four before it as section 5.2 of FIPS 197 says |
| AesCbc.ShiftRowsAt | crypto/tiny_aes.c:94-100 | the three rotations in place move row j by j columns |
| AesCbc.MixColumnsAt | crypto/tiny_aes.c:115-124 | mixes the four columns in place, using bytes already overwritten through the saved copies |
| AesCbc.CipherAt | crypto/tiny_aes.c:137-143 | encrypts the 16 bytes at an offset and nothing else |
| AesCbc.InvCipherAt | crypto/tiny_aes.c:145-151 | decrypts the 16 bytes at an offset and nothing else |
| AesCbc.Context.CbcEncryptBuffer | crypto/tiny_aes.c:164-173 | encrypts the buffer in place, chaining through it, and keeps the last block as IV |
| AesCbc.Context.CbcDecryptBuffer | crypto/tiny_aes.c:175-184 | decrypts the buffer in place and keeps the last ciphertext block as IV |
| MbfProof.ScriptRuns | mbf/mbf.c:311-339 | running the text of a program of up to 512 lines has the variables and trace of its tree, if that run spills no name or value, whatever the table held before |
| MbfFits.FittingScriptRuns | mbf/mbf.c:311-339 | the same for every program whose set commands fit, a condition on their text |
| MbfFits.BlockStays | mbf/mbf.c:58-69 | such a program never stores a name or value that is too long |
| MbfFits.WordsShort | mbf/mbf.c:78-93 | words that fit or stand for one variable are expanded to tokens that fit |
| MbfFits.OverlongDiffers | mbf/mbf.c:54-69 | a family of programs with a value of 130 characters or more whose tree prints and whose text does not |
| MbfTable.PutVarAgrees | mbf/mbf.c:58-69 | while names and values fit, storing into the table's memory is storing into a list of variables |
| MbfTable.NextNameCutsValue | mbf/mbf.c:54-69 | a value too long for its entry reads as its first 128 characters and the name of the variable stored next |
| MbfLeaves.PhraseReads | mbf/mbf.c:78-127 | a command made of words and variables is read as their values, up to sixteen, an unset variable leaving no word |
| MbfLeaves.SetRuns | mbf/mbf.c:54-134 | set stores a value that later reads give back, other variables keeping theirs; with an empty value nothing is stored |
| MbfLeaves.SetThenGet | mbf/mbf.c:54-75 | reading after storing gives the value stored last, unless the store is full and the name new |
| MbfLeaves.CommandRuns | mbf/mbf.c:120-218 | any other command is passed on with its words, and halt and reboot stop the machine |
| MbfLeaves.CommentRuns | mbf/mbf.c:107-112 | a line whose first character behind white space is a number sign does nothing |
| MbfLeaves.HaltEnds | mbf/mbf.c:210-216 | behind a halt nothing runs |
| MbfProof.BlockRuns | mbf/mbf.c:285-296 | the lines of a block, wherever they stand, do what the block means, if that spills nothing |
| MbfProof.StmtRuns | mbf/mbf.c:104-303 | one statement's lines have its meaning, if that spills nothing, and the instruction pointer ends on its last line |
| MbfProof.StmtScan | mbf/mbf.c:232-283 | a whole nested statement leaves the brace depth of a scan unchanged |
| MbfProof.IfParts | mbf/mbf.c:229-283 | the scanner finds the end of a then block that no else follows |
| MbfProof.IfElseParts | mbf/mbf.c:245-274 | the scanner finds then and else blocks and moves past both |
| MbfProof.HeaderReads | mbf/mbf.c:112-227 | a printed header is expanded and tokenized into the test it stands for |
| MbfProof.LeafReads | mbf/mbf.c:112-118 | a leaf line is never read as an if, whatever the variables hold |
| MbfProof.RefTest | mbf/mbf.c:223-226 | a comparison with a variable means the comparison of the values exactly when the variable is set, or the left one is and does not hold a brace |
| MbfProof.UnsetVariablesDiffer | mbf/mbf.c:223-226 | two unset variables, equal by value, compare as different |
| MbfProof.StoredBraceEqualsUnset | mbf/mbf.c:223-226 | a variable holding a brace and an unset one, different by value, compare as equal |
| MbfProof.SplitJoin | mbf/mbf.c:319-326 | cutting a text into lines undoes joining them |
| MbfLang.ExecLine | mbf/mbf.c:104-303 | a line never moves the instruction pointer back or past the last line |
| MbfLang.PartsOf | mbf/mbf.c:229-283 | the block bounds lie within the script and the else block starts after the header |
| Mbf.Interpreter.SetVar | mbf/mbf.c:54-69 | copies name and value into the table's memory at the first entry of the name or behind the last one, over whatever follows |
| Mbf.Interpreter.GetVar | mbf/mbf.c:71-75 | returns what the first entry of the name reads as, or nothing |
| Mbf.Interpreter.ExpandLine | mbf/mbf.c:78-93 | replaces variables in a line, stopping at 511 characters |
| Mbf.Interpreter.Tokenize | mbf/mbf.c:39-49 | splits a line at white space into at most 16 words |
| Mbf.Interpreter.TrimLine | mbf/mbf.c:31-36 | strips white space at both ends |
| Mbf.Interpreter.FindParts | mbf/mbf.c:229-283 | the nested scans find the bounds of both blocks |
| Mbf.Interpreter.ExecuteLine | mbf/mbf.c:104-303 | terminates on every list of lines with the table memory, trace and pointer of the line; halt and reboot stop the machine |
| Mbf.Interpreter.Cut | mbf/mbf.c:319-326 | cuts the copied text into lines in place, the last of 512 taking the rest |
| Mbf.Interpreter.RunText | mbf/mbf.c:311-339 | runs a script with no entry in use, refusing empty scripts and failed allocations, up to its end or the command that stops the machine |
| Scheduler.BoundedWait | kernel/sched.c:72-110 | a ready thread d places away becomes current within d schedule calls, whatever is created or exits meanwhile |
| Scheduler.ZombieForever | kernel/sched.c:64-110 | a thread that has exited stays a zombie and is never picked again |
| Scheduler.OnlyCurrentRuns | kernel/sched.c:10-110 | in every state of every run only the current thread is running |
| Scheduler.WaitStep | kernel/sched.c:85-103 | every schedule call that does not pick a ready thread brings it nearer |
| Scheduler.RunsAgain | kernel/sched.c:72-110 | over every run a thread that does not exit is current again within 64 schedule calls |
| Scheduler.LivesOn | kernel/sched.c:64-110 | over every run a ready or running thread stays so, under its identifier and name, until it exits |
| Scheduler.StartAwake | kernel/sched.c:10-110 | no thread is ever sleeping in a run from sched_init |
| Scheduler.ScheduleFrame | kernel/sched.c:72-110 | the outgoing thread has its stack pointer saved and is ready if it was running, the incoming one is running, no other entry changes, and nothing is switched only when nothing is eligible |
| Scheduler.KernelComesBack | kernel/sched.c:72-110 | the kernel thread, preempted by one it has created, is running again after the second call |
| Scheduler.Nearest | kernel/sched.c:85-95 | the scan stops at the first eligible slot going round |
| Scheduler.Table.Schedule | kernel/sched.c:72-110 | saves the outgoing thread, which stays ready if it was running, and switches to the next eligible one, if any |
| Scheduler.Table.Create | kernel/sched.c:26-62 | puts a ready thread with the next identifier into the first free slot and returns its index, or refuses when there is none |
| Scheduler.Table.Exit | kernel/sched.c:64-70 | marks the current thread a zombie |
| Smp.NothingLostOrRepeated | kernel/smp.c:308-355 | over every interleaving the executed work is a prefix of the dispatched, function and argument together, lagging by at most one |
| Smp.WaitMeansRun | kernel/smp.c:327-329 | a waiting dispatch ends only after its own work has run |
| SmpCalls.CallReturns | kernel/smp.c:308-330 | in any run, a call that has come back has published its work at most once; if it waited, that work and all before it has run; if not and the flag was down, or if the processor was offline, nothing was published |
| SmpCalls.NoWaitReturnsAlone | kernel/smp.c:308-330 | a call that does not wait comes back by steps of the boot processor alone, having published its work or changed nothing |
| SmpCalls.WaitReturnsIff | kernel/smp.c:315-329 | where the flag can come up, a waiting call can come back if and only if its function is not null |
| SmpCalls.NullNeverRuns | kernel/smp.c:345-354 | over every run no null function is executed |
| Smp.NothingOverwritten | kernel/smp.c:320-325 | work is published only when everything before it has run |
| Smp.RunKeepsInv | kernel/smp.c:29-31 | the flag is up only when nothing is pending, in every reachable state, null functions included |
| Smp.NullHangs | kernel/smp.c:345-354 | once a null function is on its way the flag stays down and nothing more runs, over every run |
| Smp.FlagReturnsIff | kernel/smp.c:308-355 | in every reachable state some run raises the flag again if and only if no null function is on its way |
| Smp.PublishedReturnsIff | kernel/smp.c:320-325 | after publishing a function the flag can come up again if and only if the function is not null |
| Smp.Raise | kernel/smp.c:345-354 | how: at most two steps of the boot processor, then steps of the other one only, twelve in all |
| Smp.NullDispatchSticks | kernel/smp.c:308-330 | a reachable state from which no run raises the flag |
| Sha1Spec.LengthSpells | net/ssh.c:70-72 | the eight length bytes spell the bit count |
| Sha1Spec.PadZeros | net/ssh.c:75 | the zeros end exactly where the length goes, fewer than a block |
| Sha1Spec.DigestWords | net/ssh.c:77 | the twenty digest bytes spell the five words |
| Sha1Vectors.AbcDigest | net/ssh.c:44-78 | the digest of "abc" is the one FIPS 180 gives |
| Sha1Spec.HmacPads | net/ssh.c:85-98 | the inner hash takes the key's bytes combined with 0x36, the outer one with 0x5C, zeros past a short key and the digest of a long one |
| Sha1.AbsorbPrefix | net/ssh.c:60-67 | blocks already hashed do not depend on what is fed later |
| Sha1.OrIsXor | net/ssh.c:50-56 | the choice and majority written with or are the standard's with exclusive or |
| Sha1.Transform | net/ssh.c:44-58 | one block is compressed as the standard's message schedule and rounds say |
| Sha1.Context.Update | net/ssh.c:60-67 | feeding pieces one after the other is feeding their concatenation |
| Sha1.Context.Final | net/ssh.c:69-78 | the digest is the standard's digest of everything fed |
| Sha1.HmacSha1 | net/ssh.c:85-98 | HMAC of RFC 2104 for keys shorter and longer than a block |
| Bignum.RowStep | net/ssh.c:142-143 | one digit step keeps the running sum exact, and its accumulator never exceeds 65535 |
| Bignum.RowEnds | net/ssh.c:145 | the last carry of a row is added to a byte that is zero |
| Bignum.Multiply | net/ssh.c:136-146 | the 512-byte value is the product of the two 256-byte values |
| Checksum.CheckSucceeds | drivers/net.c:84-90 | with the checksum stored in the word that was zero a second checksum is zero, for every length |
| Checksum.StaleWord | drivers/net.c:535-539 | a checksum taken over an old value of its own word is right exactly when that value was zero, or 0xFFFF in a packet not otherwise zero |
| Checksum.SmallIsOnesComplement | drivers/net.c:84-90 | up to 65537 words the result is the complement of the RFC's one's complement sum |
| Checksum.ExampleSum | drivers/net.c:84-90 | the example of section 3 of RFC 1071 |
| Checksum.FoldIsRemainder | drivers/net.c:88 | folding keeps the sum modulo 65535 and gives zero only for zero |
| Checksum.NetChecksum | drivers/net.c:84-90 | the two loops compute the checksum with a 32-bit accumulator, an odd last byte included |
| Checksum.Seal | drivers/net.c:533-534 | clearing, computing and storing the word makes the header check to zero and changes nothing else |
| PasswdFormat.AppendedIsFound | auth/auth.c:82-191 | after appending, a new name is accepted with the new record's fields and its password only, and a name already there keeps its old record |
| PasswdFormat.SecondRecordIsIgnored | auth/auth.c:82-191 | a name added twice: the second password is refused, the first still accepted |
| PasswdLines.CommentSkipped | auth/auth.c:95-101 | a comment anywhere counts for what is behind its first 255 characters and for nothing else |
| PasswdLines.LongCommentIsRecord | auth/auth.c:95-101 | a record behind 255 characters of comment on the same line logs its user in |
| PasswdLines.AppendedAnywhere | auth/auth.c:95-191 | in any file, what is appended is read together with the line that the file's end cuts off, unless an earlier line decides |
| PasswdLines.FoundInWhole | auth/auth.c:82-191 | in every file without such a line a new user is found, and an old one not affected |
| PasswdLines.CompleteIsWhole | auth/auth.c:95-101 | a file that ends with a newline has no such line |
| PasswdLines.LostInLastLine | auth/auth.c:95-191 | a record appended behind an unfinished comment, or behind some characters of another name, is not found |
| PasswdLines.LockedIsRefused | auth/auth.c:115-119 | a name whose first record's hash starts with an exclamation mark is refused whatever the password |
| PasswdLines.PrintExample | auth/auth.c:157-168 | a record written out, its fields in order |
| PasswdFormat.PrintFits | auth/auth.c:157-168 | every legal record fits the line buffers of writer and reader |
| PasswdFormat.LookupAppended | auth/auth.c:95-133 | records behind a complete file do not change how its own lines are read |
| PasswdFormat.ParsePrinted | auth/auth.c:109-165 | parsing a printed record gives back all six fields |
| PasswdFormat.HexRoundTrip | auth/auth.c:20-40 | eight hexadecimal digits are read back to the same 32-bit number |
| PasswdFormat.NumberReads | auth/auth.c:75-155 | a printed decimal number is read back and its colon skipped |
| Auth.HashExamples | auth/auth.c:45-53 | what is stored for the empty password and for one of four letters |
| Auth.HashAppended | auth/auth.c:45-50 | one more character is one more step of the hash |
| Auth.StepIs33 | auth/auth.c:49 | a step is 33 times the hash combined with the character |
| Auth.ToHex | auth/auth.c:20-27 | prints eight digits from the last to the first |
| Auth.FromHex | auth/auth.c:30-40 | reads at most eight digits in 32-bit arithmetic |
| Auth.ToDec | auth/auth.c:148-154 | prints the decimal digits taken from the right |
| Auth.ParseField | auth/auth.c:67-73 | takes a field up to its limit and skips a colon |
| Auth.Verify | auth/auth.c:82-136 | succeeds exactly when the first record of the name is not locked and has the password's hash |
| Auth.AddUser | auth/auth.c:138-191 | appends the printed record, changes nothing when it fails, and loses the file while returning 0 when the content cannot be stored |
| Auth.AddThenVerify | auth/auth.c:82-191 | a user added under a new name logs in with the same password and gets the same record, unless the last line is unfinished and swallows it |
| Auth.AddWithoutRoom | auth/auth.c:187-190 | after such a loss nobody can log in |
| RunLength.UnpackUndoesPack | bin/decompress.c:6-9 | decompressing what was compressed gives the input back |
| RunLength.PackedIsCanonical | bin/compress.c:8-13 | the output is pairs with counts 1-255, at most twice the input, and cuts a run only when its count is full |
| RunLength.Compress | bin/compress.c:8-13 | the nested loops produce the packed form within the buffer |
| RunLength.Decompress | bin/decompress.c:6-9 | the size pass and the expansion loop agree and produce the unpacked form |
| Base64.DecodeUndoesEncode | bin/base64.c:20-41 | decoding an encoding gives the bytes back and a newline, line breaks and padding skipped |
| Base64.ValueLetter | bin/base64.c:3-9 | the decoder's tests invert the alphabet of RFC 4648 and reject every other character |
| Base64.LinesOf76 | bin/base64.c:20-29 | newlines stand after every 76 letters and at the end, and nowhere else |
| Base64.Examples | bin/base64.c:20-29 | three test vectors of RFC 4648 |
| Base64.LastGroup | bin/base64.c:38-39 | an unfinished group at the end gives exactly the bytes it has |
| Base64.Encode | bin/base64.c:20-29 | prints groups of four with a newline after every 76 columns |
| Base64.Decode | bin/base64.c:32-41 | the state machine decodes any text, skipping other characters |

## Left out

- Inflate.Inflater.ZlibInflate: returns an unbounded count where the source converts to int, because no buffer of the kernel is that large.
- Dynamic Huffman blocks (the source rejects them), PNG chunks, CRC and Adler checks, pixel conversion and rendering.
- ScorpionFs.FileSystem.Delete: nodes with children are not modelled, because the source leaves the children's slots behind and its callers do not rely on it.
- ScorpionFs.FileSystem.Mkdir: names of 64 characters or more are excluded, because the source then writes past the node's name.
- ScorpionFs.FileSystem.CreateFile: whether kmalloc has room is an argument, and mode, owner and group are not part of a node, because they are not stored on disk either.
- ScorpionFs.FileSystem.PathInto: a one-byte buffer and nodes more than 64 deep are excluded, because the source then writes past its arrays.
- ScorpionFs.FileSystem.Resolve: components of 64 characters or more are excluded, because the source then writes past its buffer.
- SfsDisk.Store.Sync: the queue and the node pool are passed to the two passes as values, since the passes only read them; a drive fails only past its end; files over 4096 bytes are written short, as in the source, and SyncAndMount excludes them.
- SfsDisk.Store.Load: images with unterminated names or with files over 4096 bytes are excluded, because the source then reads past its buffers; the node map is a sequence.
- The debounced persistence target, partition search and shell front ends of the file system.
- SfsDisk.Store.LoadEntry: for records no sync has written only the file system's invariants are stated.
- SfsDisk.Store.LoadTable: the same for tables no sync has written.
- Kmalloc.Heap.Kfree: pointers into the middle of a payload that happen to follow a header mark are excluded, because the source cannot tell them from blocks.
- kzalloc, and the interrupt safety of the allocator.
- Mbf.Interpreter.SetVar: what lies behind the variable table is not modelled; a string running past its end is dropped there.
- MbfProof.ScriptRuns: programs whose run spills are covered by examples, not by a necessary condition, since a spilled value does no harm until the next variable is added.
- Mbf.Interpreter.Tokenize: the terminators it writes into the line are not modelled; tokens are values.
- The effects of MBF commands on files, terminal and machine: a command other than set and if is an entry in the trace.
- Scheduler.Table.Create: the stack built for a new thread and failed allocations are not modelled; the real context switch is not done by the source either.
- Smp: more than one application processor, memory reordering and lost wake-ups.
- Sha1Spec.Pad: messages of 2^61 bytes or more, which FIPS 180-4 excludes, get their length modulo 2^64, as in the source.
- The reduction half of bignum_mul_mod, which does not produce a remainder, modular exponentiation, and the SSH session.
- The rest of the network stack: ARP, DHCP, DNS, TCP state, and how pseudo-headers are built.
- Auth.AddUser: records over 254 characters are excluded, because the source then writes past its line buffer; the password prompt and hostname are not modelled.
- Auth.AddThenVerify: an unfinished last line of 90 characters or more, or with a whole name field in it, is covered by PasswdLines.AppendedAnywhere only, since what the joined line then says depends on both.
- MbfLeaves.PhraseReads: lines that grow over 511 characters are cut in the middle of a word, and commands with several blanks between words are not covered.
- Compress and decompress are modelled on contents; reading and writing the files is not.
- GUI, games, rasterisers, editor, shell and the small text commands: they would add only easy members.
