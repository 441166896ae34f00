# Verified models of the MoxideOS storage and IPC core

This project models the self-contained state machines of the kernel in Dafny and proves what each of them promises. It
verifies with `dafny verify dfyconfig.toml`.

## What is modelled

* **exFAT** (`src/fs/exfat.rs`). A volume is one byte vector (`ExfatDriver.Volume`); its view is a FAT and an array of
  clusters. `ExfatFs` states every operation as a function from volume to volume, and the class methods are proved equal
  to those functions on the view. `ExfatWf.Wf` is the well-formedness of a volume: chains acyclic and pairwise disjoint,
  FAT-used and bitmap-used clusters exactly their union, every chain metadata, the root or referenced by exactly one
  entry of a directory reachable from the root, directories made of complete entry sets with correct checksums and zeros
  behind the end mark. `ExfatMain` holds the guarantees over that predicate, and
  `ExfatSpace` the exact conditions of success. Sections 4.1, 6.3.3, 7.1, 7.4, 7.6 and 7.7 of
  the exFAT specification give the formats.
* **JBD2 replay** (`src/fs/jbd2.rs`). Parsing, the circular scan and the block writes it leads to. `Jbd2Proofs.Live` says
  which tags count without mentioning the scan's state: a descriptor, the next commit with no descriptor or commit
  between, equal sequences, the payload at the tag's index, and no revoke of that sequence between.
* **ext4 mapping** (`src/fs/ext4.rs`). The block-map and extent walks against pointwise specifications.
* **Queues**. The pipe (`src/fs/pipe.rs`) as a class and as a machine whose steps are critical sections; `RingBuf`
  (`src/core/collections.rs`) and the io_uring rings (`src/io_uring/ring.rs`) as machines whose steps are single loads,
  slot accesses and stores, with wrapping counters.
* **Tables and accounting**. Advisory locks (`src/fs/flock.rs`) as a machine over the sections of each call, the hash map
  (`src/core/fast_hash.rs`), tmpfs accounting (`src/fs/tmpfs.rs`), sector access (`src/block/mod.rs`) and System V message
  queues (`src/ipc/msg.rs`) as classes.

Where a machine has histories (`appended`, `pushed`, `sent`, `consumed`, `seen`) they are auxiliary: no step's choice
depends on them.

## Where code and documentation differ

The model follows the code.

* `src/ipc/msg.rs:27-31` documents a negative selector as the first message of an eligible type; the code takes the least
  eligible type, and the first message of it. `Msg.Select` states the code's rule. The least 64-bit selector negates to
  itself, so it selects nothing.
* `src/io_uring/ring.rs:147-153` puts the entry array right behind the index array; the code aligns it to 64 bytes.
  `IoUring.LayoutFits` covers the aligned layout.
* `src/fs/ext4.rs:665-668` reads a length field of 0x8000 as length zero.
* `src/fs/tmpfs.rs:518-531` says that a rename unlinks its victim; the code removes the inode whatever its link count.
  So third paths keep their data if and only if they are not other names of the victim (`RenameKeepsOthers`), and the
  moved file arrives if and only if the victim was not another name of itself (`RenameMoves`). The names are removed
  before the new parent is looked up: a failed rename keeps the tree if and only if the old name or its parent was
  missing (`FailedRenameKeeps`), and a new parent that is one of the two names, as in a rename onto `/` or below itself,
  always fails (`RenameFailsExactly`).
* `src/fs/jbd2.rs` lets a new descriptor replace a pending transaction and honours revokes only inside their own
  transaction; `Jbd2Proofs.Live` states that rule. A tag is read as low number, high number, flags, UUID, checksum
  (`Jbd2Format.TagBytes`), which is not the field order of `struct journal_block_tag_s` in Linux.

## Model

| member | source | states |
|---|---|---|
| `ExfatMain.WriteFileCorrect` | src/fs/exfat.rs:1108-1192 | On every well-formed volume: success makes the path read back exactly the contents, leaves every other file and listing as it was, and adds or replaces one listing item; any failure, at any point, leaves the FAT and every byte of every allocated cluster (bitmap, directories, files) as before; the volume stays well formed either way |
| `ExfatMain.CreateDirCorrect` | src/fs/exfat.rs:1195-1235 | The same for directory creation: the new path lists as empty, all else reads the same, and every failure is undone |
| `ExfatSpace.WriteFileStatus` | src/fs/exfat.rs:1108-1192 | On every well-formed volume the status of a write can be read off beforehand: the error of the name, of the parent, or of a directory in the way; else ENOSPC exactly when the free clusters do not cover the data plus the growth that a new name costs its parent; else 0 |
| `ExfatSpace.CreateDirStatus` | src/fs/exfat.rs:1195-1235 | The same for directory creation, with one cluster for the new directory |
| `ExfatSpace.AllocExactly` | src/fs/exfat.rs:226-244 | Allocating n clusters succeeds exactly when n clusters are free in the FAT, also on a volume without a bitmap |
| `ExfatSpace.EnsureExactly` | src/fs/exfat.rs:787-810 | Making room in a directory succeeds exactly when the free clusters cover the growth past its end mark |
| `ExfatSpace.InsertExactly` | src/fs/exfat.rs:961-1019 | Inserting a new name succeeds exactly when that growth is covered |
| `ExfatMain.RunKeepsWf` | src/fs/exfat.rs:1108-1235 | Every run of file writes and directory creations, successful or not, keeps the volume well formed: chains acyclic and disjoint, FAT-used and bitmap-used clusters exactly their union, nothing leaked or shared |
| `ExfatFormat.EmptyVolumeIsWf` | src/fs/exfat.rs:60-72 | A volume with a bitmap cluster and an empty root is well formed for every geometry whose bitmap fits one cluster, so the guarantees are not empty |
| `ExfatTheorems.WriteFileEffect` | src/fs/exfat.rs:1108-1192 | A write ends with the file in the directory tree and its contents in its chain, or with the volume restored |
| `ExfatTheorems.ReadAfterWrite` | src/fs/exfat.rs:1091-1105 | A path reads as the new contents exactly when it names the written file (case-insensitively, component by component), and otherwise as before |
| `ExfatMkdir.CreateDirEffect` | src/fs/exfat.rs:1195-1235 | A directory creation ends with an empty, referenced directory chain, or with the volume restored |
| `ExfatOps.InsertNew` | src/fs/exfat.rs:961-1019 | Inserting a new name, with or without directory growth, adds exactly one entry or fails with ENOSPC and restores the volume |
| `ExfatOps.ReplaceOld` | src/fs/exfat.rs:961-1019 | Replacing a file of an equal name always succeeds in place, changes that one entry, and frees exactly the old chain |
| `ExfatStage.FillStage` | src/fs/exfat.rs:1133-1164 | The claimed, linked and filled clusters form one new chain, waiting for its entry; no existing chain, directory or file changes |
| `ExfatTheorems.FillHolds` | src/fs/exfat.rs:1145-1164 | That new chain reads as the contents, padded with zeros to whole clusters |
| `ExfatStage.RollbackAll` | src/fs/exfat.rs:1177-1182 | Releasing the claims after a failed insertion restores FAT, bitmap and every allocated cluster |
| `ExfatStage.RestoredWf` | src/fs/exfat.rs:917-922 | A restored volume is well formed with the same directory tree |
| `ExfatSound.AppendSound` | src/fs/exfat.rs:259-296 | Appending turns a chain into the old chain followed by n zero-filled clusters nobody used, all other chains unchanged, or fails with ENOSPC and restores the volume |
| `ExfatSound.AddChain` | src/fs/exfat.rs:226-244 | Claimed and linked clusters become one more disjoint chain, with FAT and bitmap exact again |
| `ExfatSound.DropChain` | src/fs/exfat.rs:246-257 | Freeing a chain drops exactly that chain from FAT and bitmap |
| `ExfatSound.MergeChains` | src/fs/exfat.rs:283-283 | Pointing one chain at another joins the two and changes no third |
| `ExfatSound.LinkMakesChain` | src/fs/exfat.rs:285-293 | Linking distinct clusters in order makes them a chain and touches no other FAT entry |
| `ExfatSound.AllocSound` | src/fs/exfat.rs:226-244 | In a sound volume the clusters handed out are in no chain and come zeroed |
| `ExfatSound.RollbackSound` | src/fs/exfat.rs:273-281 | Releasing a partial allocation restores the volume |
| `ExfatAlloc.FindFree` | src/fs/exfat.rs:226-237 | The allocator takes the first cluster that is free in the FAT and not marked in the bitmap |
| `ExfatAlloc.MarkBitEffect` | src/fs/exfat.rs:199-224 | Marking a cluster flips its one bitmap bit and nothing else of the volume |
| `ExfatAlloc.AllocManyEffect` | src/fs/exfat.rs:226-244 | Repeated allocation claims distinct free clusters, zeroes them, and changes only their FAT entries and bits |
| `ExfatAlloc.FreeAllEffect` | src/fs/exfat.rs:246-257 | Freeing clusters clears exactly their FAT entries and bits |
| `ExfatAlloc.FreeAllUndoes` | src/fs/exfat.rs:917-922 | Releasing what was claimed gives back the old FAT and bitmap |
| `ExfatAlloc.BitmapDetermined` | src/fs/exfat.rs:188-197 | Equal bits mean equal bitmap bytes |
| `ExfatChain.ChainIs` | src/fs/exfat.rs:136-156 | The bounded walk returns exactly the acyclic chain that starts at its argument; its cut-off is never reached |
| `ExfatChain.ChainFrame` | src/fs/exfat.rs:136-156 | A chain survives every FAT change outside its own clusters |
| `ExfatChain.FlatFill` | src/fs/exfat.rs:1155-1164 | What is copied over a chain of zeroed clusters is what the chain reads as, padded with zeros |
| `ExfatChain.FlatPoke` | src/fs/exfat.rs:298-305 | An edit inside one cluster is the same edit of the chain's bytes at the computed offset |
| `ExfatDentry.BuiltEntry` | src/fs/exfat.rs:388-463 | Parsing undoes building: for every legal name, cluster, size and attributes, at any place in a directory |
| `ExfatDentry.PutChecksumOk` | src/fs/exfat.rs:613-626 | Storing the set checksum makes it correct, whatever was stored before (section 6.3.3 of the exFAT specification) |
| `ExfatDentry.ParsedHasRoom` | src/fs/exfat.rs:388-463 | Every parsed entry, of arbitrary bytes, has as many slots as its name needs |
| `ExfatDir.InsertFrom` | src/fs/exfat.rs:961-1019 | A complete set written into a reachable free run adds one entry, keeps the others in order, and keeps the directory well formed |
| `ExfatDir.RewriteFrom` | src/fs/exfat.rs:961-1019 | A set rewritten in place, with the leftover slots marked deleted, changes that entry only |
| `ExfatDir.GrowFrom` | src/fs/exfat.rs:787-810 | Zeroed clusters at the end change no entry |
| `ExfatDir.FindFreeRunSpec` | src/fs/exfat.rs:744-785 | A found run is free and reachable; a failed search means the slots do not fit behind the end mark |
| `ExfatDir.GrownRun` | src/fs/exfat.rs:787-810 | After growth the run at the old end mark is free |
| `ExfatDir.FindEod` | src/fs/exfat.rs:730-742 | The end-of-directory offset is the first end mark, or the end of the bytes |
| `ExfatDir.MarkDeletedAt` | src/fs/exfat.rs:946-953 | Deleting clears the in-use bit of each slot of the range and no other byte |
| `ExfatDir.EntrySetGood` | src/fs/exfat.rs:628-686 | A built set is complete: slot count, in-use secondaries and checksum |
| `ExfatDir.WithLengthGood` | src/fs/exfat.rs:882-906 | A length update leaves the set complete, its checksum correct |
| `ExfatDir.LengthEntry` | src/fs/exfat.rs:882-906 | A length update changes nothing of the parsed entry but its size: to the stored length when the set has one stream entry, and not at all when a later stream entry overrides it |
| `ExfatDir.BuiltOneStream` | src/fs/exfat.rs:628-686 | Every set the driver builds has exactly one stream entry, the first secondary |
| `ExfatPath.SplitParentComps` | src/fs/exfat.rs:565-571 | The split path names its last component inside the directory the parent path names |
| `ExfatPath.FindIx` | src/fs/exfat.rs:924-929 | The first entry whose folded name equals the folded name asked for, or none |
| `ExfatPath.ReplacementFits` | src/fs/exfat.rs:931-959 | For arbitrary directory bytes an equal-named entry has at least the slots of the new set, so the relocation branch is never taken |
| `ExfatPath.UpcaseIsLookup` | src/fs/exfat.rs:307-344 | For every table: folding a unit gives its entry in the decompressed table, and past the end of that only ASCII letters fold |
| `ExfatPath.HashOfFolded` | src/fs/exfat.rs:598-611 | The name hash is the rotating sum of the bytes of the folded name |
| `ExfatPath.EqualNamesEqualHash` | src/fs/exfat.rs:598-611 | Names that are equal to the lookup have equal hashes, so comparing hashes never rejects an equal name |
| `Utf16.DecodeEncode` | src/fs/exfat.rs:376-386 | Every string survives UTF-16 encoding and decoding |
| `Utf16.EncodeDecodeLength` | src/fs/exfat.rs:376-386 | Decoding arbitrary units, lone surrogates included, keeps their number when encoded again |
| `Utf16.UnitsRoundTrip` | src/fs/exfat.rs:376-386 | Units survive their little-endian byte form |
| `ExfatEdit.WriteDirEffect` | src/fs/exfat.rs:812-841 | An entry set written across cluster boundaries replaces exactly its bytes of the directory |
| `ExfatEdit.MarkDirEffect` | src/fs/exfat.rs:713-728 | The deletion loop over the directory's clusters is the deletion of its bytes |
| `ExfatEdit.PutChecksumEffect` | src/fs/exfat.rs:859-880 | Recomputing stores the checksum of the set as it is |
| `ExfatEdit.UpdateLengthsEffect` | src/fs/exfat.rs:882-906 | Updating stream lengths rewrites both lengths and the checksum of one set, nothing else |
| `ExfatEdit.InsertParse` | src/fs/exfat.rs:628-686 | A built set in a free run shows up as one entry with its name, cluster, size and kind |
| `ExfatEdit.ReplaceParse` | src/fs/exfat.rs:628-686 | A built set over an old one shows up as that entry replaced |
| `ExfatEdit.LengthsParse` | src/fs/exfat.rs:882-906 | A length update keeps a directory well formed and changes one size: to the length passed in when the first secondary is the set's one stream entry, and not at all otherwise |
| `ExfatWf.WfGrow` | src/fs/exfat.rs:787-810 | Growing a directory keeps the volume well formed and every table the same |
| `ExfatWf.WfInsert` | src/fs/exfat.rs:961-1019 | Inserting the entry of a pending chain keeps the volume well formed and ends the pending |
| `ExfatWf.WfReplace` | src/fs/exfat.rs:961-1019 | Replacing an entry leaves exactly the old file's chain unreferenced |
| `ExfatWf.WfDrop` | src/fs/exfat.rs:246-257 | Freeing that chain makes the volume well formed again, all other contents the same |
| `ExfatWf.WfLengths` | src/fs/exfat.rs:908-915 | Updating a directory's recorded size keeps the volume well formed and changes exactly that size, to the value above |
| `ExfatOps.InsertedSized` | src/fs/exfat.rs:908-915 | After growth the entry of a directory that is not the root records the length of its chain in bytes (when its set has the usual one stream entry), and nothing else of the tree changes |
| `ExfatResolve.ResolveIsRT` | src/fs/exfat.rs:512-553 | On a well-formed volume path resolution is lookup in the directory tree |
| `ExfatResolve.EditResolve` | src/fs/exfat.rs:512-553 | After one entry is added or replaced, paths to it find it and every other path finds what it found before |
| `ExfatImage.PlaceIs` | src/fs/exfat.rs:88-101 | The offset computed for a cluster of the heap is its place, and the cluster lies inside the image |
| `ExfatImage.Apart` | src/fs/exfat.rs:88-101 | The places of two clusters do not overlap |
| `ExfatImage.SetFatView` | src/fs/exfat.rs:125-134 | Writing four bytes of the image changes one FAT entry and nothing else; a cluster number outside the FAT changes nothing |
| `ExfatImage.PokeView` | src/fs/exfat.rs:108-111 | Writing inside a cluster of the image changes that cluster and nothing else |
| `ExfatCodec.ParseDir` | src/fs/exfat.rs:388-463 | The parser loop finds the entries of the specification, as the loop computes it |
| `ExfatCodec.ParseSet` | src/fs/exfat.rs:400-455 | One entry set: name, first cluster, size, kind, and where the next set starts, as the loop computes it |
| `ExfatCodec.SearchRun` | src/fs/exfat.rs:744-785 | The free-run search, as the loop computes it |
| `ExfatCodec.SearchEod` | src/fs/exfat.rs:730-742 | The end-mark search, as the loop computes it |
| `ExfatCodec.SumSet` | src/fs/exfat.rs:613-626 | The rotating checksum that skips its own field, as the loop computes it |
| `ExfatCodec.FoldUnits` | src/fs/exfat.rs:366-370 | A folded name, unit by unit, as the loop computes it |
| `ExfatCodec.FindName` | src/fs/exfat.rs:924-929 | The first entry with an equal name, as the loop computes it |
| `ExfatCodec.SameNames` | src/fs/exfat.rs:372-374 | Name equality is equality of folded units, as the loop computes it |
| `ExfatCodec.CheckName` | src/fs/exfat.rs:573-596 | Which names are refused, and with which error, as the loop computes it |
| `ExfatCodec.BuildSet` | src/fs/exfat.rs:628-686 | The bytes written field by field are the specified set with its checksum, as the loop computes it |
| `ExfatCodec.ClearInUse` | src/fs/exfat.rs:946-953 | The deletion loop on a copy, as the loop computes it |
| `ExfatDriver.Volume.constructor` | src/fs/exfat.rs:60-72 | An image that covers its geometry |
| `ExfatDriver.Volume.SetFatEntry` | src/fs/exfat.rs:125-134 | One FAT entry of the view changes; a cluster number outside the FAT is ignored |
| `ExfatDriver.Volume.PokeBytes` | src/fs/exfat.rs:108-111 | One cluster of the view changes, in place |
| `ExfatDriver.Volume.ClusterBytes` | src/fs/exfat.rs:103-106 | The bytes of a cluster, or none for one outside the heap |
| `ExfatDriver.Volume.ClusterChain` | src/fs/exfat.rs:136-156 | The walk over the image is the chain of its view |
| `ExfatDriver.Volume.ReadChainBytes` | src/fs/exfat.rs:158-163 | The concatenated clusters of a chain |
| `ExfatDriver.Volume.BitmapPos` | src/fs/exfat.rs:175-186 | Where a cluster's bitmap byte is |
| `ExfatDriver.Volume.BitmapAllocated` | src/fs/exfat.rs:188-197 | The bitmap bit |
| `ExfatDriver.Volume.SetBitmap` | src/fs/exfat.rs:199-224 | The view with one bit marked |
| `ExfatDriver.Volume.AllocCluster` | src/fs/exfat.rs:226-244 | The first free cluster is claimed, marked and zeroed, or nothing changes |
| `ExfatDriver.Volume.AllocClusters` | src/fs/exfat.rs:1133-1143 | The allocation loop, with what it claimed when it fails |
| `ExfatDriver.Volume.FreeClusters` | src/fs/exfat.rs:917-922 | Every given cluster is released |
| `ExfatDriver.Volume.LinkClusters` | src/fs/exfat.rs:285-293 | The clusters linked in order |
| `ExfatDriver.Volume.AppendClusters` | src/fs/exfat.rs:259-296 | The append of the specification, rollback included |
| `ExfatDriver.Volume.ReadUpTable` | src/fs/exfat.rs:165-173 | The up-case table's bytes |
| `ExfatDriver.Volume.ReadEntries` | src/fs/exfat.rs:388-463 | A directory's entries |
| `ExfatDriver.Volume.ResolvePath` | src/fs/exfat.rs:512-553 | Path resolution, component by component |
| `ExfatDriver.Volume.ResolveParent` | src/fs/exfat.rs:555-563 | The parent must be a directory |
| `ExfatDriver.Volume.ReadFileAt` | src/fs/exfat.rs:1091-1105 | `read_file` on the view |
| `ExfatDriver.Volume.ReadDirAt` | src/fs/exfat.rs:1243-1257 | `read_dir` on the view |
| `ExfatDriver.Volume.LocateByte` | src/fs/exfat.rs:298-305 | Cluster and offset of a directory byte |
| `ExfatDriver.Volume.WriteDentries` | src/fs/exfat.rs:812-841 | The chunked write of entries |
| `ExfatDriver.Volume.MarkDentries` | src/fs/exfat.rs:713-728 | The deletion of entries on disk |
| `ExfatDriver.Volume.RecomputeChecksum` | src/fs/exfat.rs:859-880 | The checksum of a set stored again |
| `ExfatDriver.Volume.UpdateStreamLengths` | src/fs/exfat.rs:882-906 | Both lengths and the checksum |
| `ExfatDriver.Volume.UpdateDirSizeOf` | src/fs/exfat.rs:908-915 | A grown directory's size in its own entry |
| `ExfatDriver.Volume.EnsureRunIn` | src/fs/exfat.rs:787-810 | Room for the slots, growing the directory if needed |
| `ExfatDriver.Volume.ChooseOffsetIn` | src/fs/exfat.rs:931-959 | Where the new set goes |
| `ExfatDriver.Volume.FreeChain` | src/fs/exfat.rs:246-257 | A whole chain is released; a first cluster below 2 is no chain |
| `ExfatDriver.Volume.MarkRest` | src/fs/exfat.rs:991-1005 | The slots of the old set that the new one does not cover |
| `ExfatDriver.Volume.InsertOrReplaceIn` | src/fs/exfat.rs:961-1019 | The directory update of the specification |
| `ExfatDriver.Volume.CopyClusters` | src/fs/exfat.rs:1155-1164 | The data copied over the chain |
| `ExfatDriver.Volume.FillClusters` | src/fs/exfat.rs:1145-1164 | Clusters linked and filled |
| `ExfatDriver.Volume.StoreFileIn` | src/fs/exfat.rs:1133-1192 | The second half of `write_file`: allocation, data and entry, or everything given back |
| `ExfatDriver.Volume.WriteFileAt` | src/fs/exfat.rs:1108-1192 | `write_file` on one byte vector equals the specified write on its view; from a well-formed image it returns the predicted status, `ReadFileAt` then gives back the contents, all other paths read as before, and a failure leaves every allocated cluster as it was |
| `ExfatDriver.Volume.CreateDirAt` | src/fs/exfat.rs:1195-1235 | `create_dir` on one byte vector equals the specified creation on its view, with the same guarantees |
| `Jbd2Proofs.CrashIdempotent` | src/fs/jbd2.rs:273-298 | For every journal and image: stopping after any number of block writes and replaying from the start ends in the same image and report as one uninterrupted replay |
| `Jbd2Proofs.ReplayRepairs` | src/fs/jbd2.rs:304-402 | Stronger: whatever an interruption left in the bytes that replay stores, even half-written blocks, replay ends the same |
| `Jbd2Proofs.ListCrashIdempotent` | src/fs/jbd2.rs:406-425 | The same for a journal inside the image, when no replayed write touches a journal block |
| `Jbd2Proofs.ListRepairs` | src/fs/jbd2.rs:406-425 | The same for arbitrary damage within the replayed bytes |
| `Jbd2Proofs.NamesNoJournalBlock` | src/fs/jbd2.rs:406-425 | With one block size, it is enough that no replayed block number is a journal block |
| `Jbd2Proofs.LastWriterWins` | src/fs/jbd2.rs:337-399 | Every byte ends as the unescaped payload of the last tag for its block, in scan order, that is committed by its own sequence, not revoked in its transaction, and has a payload; or as it was when there is none |
| `Jbd2Proofs.NoCommitNoEffect` | src/fs/jbd2.rs:377-385 | Unfinished or mismatched transactions change nothing |
| `Jbd2Proofs.CurIs` | src/fs/jbd2.rs:337-399 | The pending transaction is the last descriptor since the last commit, with the payloads and revokes after it |
| `Jbd2Proofs.TxnByte` | src/fs/jbd2.rs:273-298 | Within a transaction the last tag that lands on a byte wins |
| `Jbd2Proofs.WritesWhole` | src/fs/jbd2.rs:273-298 | Every replayed write is one whole file-system block |
| `Jbd2.ParseSuper` | src/fs/jbd2.rs:129-171 | A superblock is accepted only with a power-of-two block size |
| `Jbd2.ReportAt` | src/fs/jbd2.rs:359-392 | The blocks reported as replayed are the block writes made |
| `Jbd2.Replay` | src/fs/jbd2.rs:304-402 | A refused journal leaves the image untouched |
| `Jbd2.ReplayList` | src/fs/jbd2.rs:406-425 | Refusals, of the list or the journal, leave the image untouched |
| `Jbd2Driver.ParseDescriptor` | src/fs/jbd2.rs:192-243 | The tag loop: wide numbers, UUIDs, checksums, deleted and last tags |
| `Jbd2Driver.ParseRevokes` | src/fs/jbd2.rs:245-265 | The revoke records of a block |
| `Jbd2Driver.StoreBlock` | src/fs/jbd2.rs:287-294 | A block stored in place, its magic number restored when it was escaped |
| `Jbd2Driver.ApplyTxn` | src/fs/jbd2.rs:273-298 | The image becomes the old image with the transaction's writes applied, and their number is returned |
| `Jbd2Driver.OneBlock` | src/fs/jbd2.rs:344-392 | One scan step advances pending transaction, report and image together |
| `Jbd2Driver.ReplayBlocks` | src/fs/jbd2.rs:337-399 | The circular scan with its early end |
| `Jbd2Driver.ReplayImage` | src/fs/jbd2.rs:304-402 | The in-place replay equals the specified one, errors included |
| `Jbd2Driver.ReplayFromBlockList` | src/fs/jbd2.rs:406-425 | Gathering and replaying equals the specified one, errors included |
| `Bits.PowerOfTwoTest` | src/fs/jbd2.rs:151-153 | The mask test accepts the powers of two and nothing else |
| `Jbd2Format.TagsRoundTrip` | src/fs/jbd2.rs:192-243 | Parsing a descriptor gives back exactly the tags written in the layout the code reads, in every feature combination and however full the block is, without the deleted ones; only a last tag with fewer than eight bytes before the checksum tail is not looked at |
| `Jbd2Format.RevokeRoundTrip` | src/fs/jbd2.rs:245-265 | Parsing a revoke block gives back exactly the block numbers written into it |
| `Jbd2Format.VisitOrder` | src/fs/jbd2.rs:350-353 | The visited positions in closed form: to the end of the log, then round and round from its first block, also for a start or first block outside the log |
| `Jbd2Format.ScanOrder` | src/fs/jbd2.rs:337-399 | A log whose start and first block lie inside it is scanned completely, each visit in that circular order |
| `Ext4Walk.WalkMap` | src/fs/ext4.rs:786-883 | The four-level walk emits logical blocks 0..n-1 once each in order, each with the block number that direct, single, double or triple index arithmetic reaches; zeros at any level give holes of the right length |
| `Ext4Walk.EmitHoles` | src/fs/ext4.rs:816-821 | A hole of the given length, cut at the end of the file |
| `Ext4Walk.EmitSingle` | src/fs/ext4.rs:808-822 | The entries below one pointer block |
| `Ext4Walk.EmitDouble` | src/fs/ext4.rs:824-849 | The entries below a double-indirect block |
| `Ext4Walk.EmitTriple` | src/fs/ext4.rs:851-880 | The entries below a triple-indirect block |
| `Ext4Walk.CollectLeaf` | src/fs/ext4.rs:643-684 | A leaf's extents; length fields 0 and 0x8000 are skipped |
| `Ext4Walk.CollectExtents` | src/fs/ext4.rs:615-711 | The tree walk terminates on every image, cyclic index blocks included, and collects exactly the extents of the specification |
| `Ext4Walk.EmitGap` | src/fs/ext4.rs:746-755 | The hole in front of an extent |
| `Ext4Walk.EmitExtent` | src/fs/ext4.rs:746-770 | An extent's blocks below the end of the file |
| `Ext4Walk.WalkExtents` | src/fs/ext4.rs:743-784 | The extent branch emits holes and extents as specified |
| `Ext4Walk.ReadInodeData` | src/fs/ext4.rs:885-911 | The read of an inode equals the specified bytes, for both mappings |
| `Ext4Proofs.ReadMapByte` | src/fs/ext4.rs:885-911 | Every byte of a block-mapped file is the byte of the mapped block, zero for holes and blocks outside the image |
| `Ext4Proofs.ReadExtentByte` | src/fs/ext4.rs:885-911 | For every extent tree: a byte is the one supplied by the last covering, initialized, in-image extent in sorted order, else zero |
| `Ext4Proofs.ReadDisjointByte` | src/fs/ext4.rs:713-719 | With extents that do not overlap: the mapped physical byte when an initialized extent covers it, zero otherwise |
| `Ext4Proofs.SortStable` | src/fs/ext4.rs:713-719 | The sort orders by logical block, keeps every extent, and keeps the order of equal keys |
| `Ext4Proofs.TraceOnce` | src/fs/ext4.rs:743-784 | Sorted extents that do not overlap: every logical block is emitted once, in order |
| `Ext4Proofs.LeafRoundTrip` | src/fs/ext4.rs:643-684 | Collecting a leaf gives back exactly the extents written into it, initialized or not |
| `PipeRing.PipeInner.constructor` | src/fs/pipe.rs:121-130 | A new pipe is empty with both ends open |
| `PipeRing.PipeInner.ReadBytes` | src/fs/pipe.rs:145-153 | The oldest bytes leave the ring, across its wrap-around |
| `PipeRing.PipeInner.WriteBytes` | src/fs/pipe.rs:155-162 | The new bytes join at the end, across the wrap-around |
| `PipeRing.PipeInner.ReadSection` | src/fs/pipe.rs:337-354 | One locked pass of a reader ends as `ReadOutcome` says, the function the machine below steps by, and takes that many of the oldest bytes |
| `PipeRing.PipeInner.WriteSection` | src/fs/pipe.rs:392-430 | One locked pass of a writer ends as `WriteOutcome` says, the function the machine below steps by, and appends that many bytes; at most PIPE_BUF bytes go whole or not at all |
| `Pipe.StepKeeps` | src/fs/pipe.rs:321-457 | Every critical section of any reader or writer, every cancellation, open and close, keeps the invariant below |
| `Pipe.Run` | src/fs/pipe.rs:321-457 | Over every interleaving: bytes read followed by bytes buffered are the bytes appended in lock order, and every call's progress matches what it moved |
| `Pipe.WriteResult` | src/fs/pipe.rs:370-457 | A write that returned r appended exactly the first r bytes of its data; an error means nothing was appended |
| `Pipe.ShortWriteContiguous` | src/fs/pipe.rs:409-421 | A write of at most PIPE_BUF bytes that succeeds returns its full length and is contiguous in the stream; one that fails appended nothing (POSIX.1-2017 write(), PIPE_BUF rule) |
| `Pipe.WaitsExactly` | src/fs/pipe.rs:342-366 | The conditions under which a reader or a writer is left waiting |
| `Pipe.NeverBothWait` | src/fs/pipe.rs:321-457 | In no reachable state would both a reader and a writer be left waiting |
| `Pipe.ReadyMeansNoWait` | src/fs/pipe.rs:249-270 | Readiness bits say exactly whether a read, or a one-byte write, would wait |
| `RingBuf.Run` | src/core/collections.rs:152-178 | Over every interleaving of single loads, slot accesses and stores, and across counter wrap-around: what is popped is a prefix of what is pushed, and at most the capacity is held |
| `RingBuf.StepKeeps` | src/core/collections.rs:152-178 | Every single access keeps the ring invariant, stale loads included |
| `RingBuf.SlotsOwned` | src/core/collections.rs:158-175 | The slot about to be written holds no unpopped item and is not the one about to be read |
| `RingBuf.FullExactly` | src/core/collections.rs:152-158 | A push is refused exactly when the ring was full as the tail was loaded |
| `RingBuf.EmptyExactly` | src/core/collections.rs:167-172 | A pop finds nothing exactly when the ring was empty as the head was loaded |
| `RingBuf.PopDelivers` | src/core/collections.rs:167-178 | A pop that saw an item delivers the oldest one in the ring |
| `RingBuf.EmptyAnswer` | src/core/collections.rs:136-140 | `is_empty` with any steps between its two loads: a positive answer means that the ring was empty at both, unless 2^64 items passed in between; for the consumer the answer is exact at the second load |
| `RingBuf.FullAnswer` | src/core/collections.rs:142-148 | `is_full` likewise: a positive answer means that the ring was full at both loads; for the producer the answer is exact at the second load |
| `Counters.SlotIs` | src/core/collections.rs:158-158 | Masking a wrapped counter selects the slot of the true count |
| `Counters.WrapSubIs` | src/core/collections.rs:155-155 | Wrapped subtraction gives the true distance of two counts |
| `Bits.MaskIsRemainder` | src/core/collections.rs:158-158 | Masking with a power of two less one takes the remainder |
| `IoUring.LayoutFits` | src/io_uring/ring.rs:222-237 | Every admitted ring fits its pages: index array before the aligned entry array, both inside, although the size test leaves out the rounding |
| `IoUring.NextPow2From` | src/io_uring/ring.rs:461-461 | The least doubling that reaches the request |
| `IoUring.Run` | src/io_uring/ring.rs:258-312 | Over every interleaving of the accesses of one `push_sqe` and one `drain_sq` caller: drained entries are a prefix of the pushed ones, in order |
| `IoUring.StepKeeps` | src/io_uring/ring.rs:258-312 | Every single access keeps the submission-ring invariant, across 32-bit wrap-around |
| `IoUring.PushSlotFree` | src/io_uring/ring.rs:267-271 | A push that passes its own overflow test, however old the head it loaded, overwrites no entry and no index that is still to be drained |
| `IoUring.DrainNeverDrops` | src/io_uring/ring.rs:286-309 | With `push_sqe` as the producer, the overrun branch and the bad-index branch are never taken |
| `IoUring.DrainTakesSeen` | src/io_uring/ring.rs:280-312 | A finished drain took every entry pushed before it loaded the tail |
| `IoUringCq.CqRun` | src/io_uring/ring.rs:318-335 | Over every interleaving with a user that only moves the head up to the tail: no unread completion is overwritten |
| `IoUringCq.CqStepKeeps` | src/io_uring/ring.rs:318-335 | Every field store and every head move keeps the completion-ring invariant |
| `IoUringCq.AvailableIs` | src/io_uring/ring.rs:246-251 | `cq_available` is the number of completions posted and not consumed |
| `IoUringCq.OverflowExactly` | src/io_uring/ring.rs:323-326 | A completion is refused exactly when the ring was full as the head was loaded |
| `FlockProofs.MutualExclusion` | src/fs/flock.rs:99-257 | Over every run, with any number of calls in flight: a byte that one process locks other than for reading is locked by no other process |
| `FlockProofs.RecordsDisjoint` | src/fs/flock.rs:231-241 | The record locks of one process on one inode never share a byte |
| `FlockProofs.LimitHolds` | src/fs/flock.rs:64-76 | With one lock call in flight per process, no process ever exceeds its fixed RLIMIT_LOCKS |
| `FlockProofs.StepGood` | src/fs/flock.rs:99-265 | Every section of every call and every release keeps all locks compatible |
| `FlockProofs.StepLimit` | src/fs/flock.rs:99-265 | Every step keeps the room that a call in its acquiring loop relies on, blocked retries included |
| `FlockProofs.AcquiredCount` | src/fs/flock.rs:231-241 | A successful try adds one lock, less those it replaces |
| `FlockProofs.KeepCount` | src/fs/flock.rs:233-233 | Retaining keeps a process's lock count exactly when none of its locks is dropped |
| `FlockProofs.AcquireEffect` | src/fs/flock.rs:142-161 | An unblocked try holds the lock asked for in place of the record locks it overlaps and touches no other lock; a blocked one changes none and returns or waits as asked |
| `FlockProofs.UnlockEffect` | src/fs/flock.rs:104-111 | Unlocking drops exactly this process's flock locks, or its locks overlapping the range, on that inode |
| `FlockProofs.ReleaseEffect` | src/fs/flock.rs:252-265 | Exit drops the process's locks everywhere, close its flock locks on one inode, and nothing else |
| `Flock.FirstConflict` | src/fs/flock.rs:177-197 | `F_GETLK` reports a lock exactly when acquiring would block |
| `Flock.LockRange` | src/fs/flock.rs:267-275 | A requested range is never empty and stays within 64 bits |
| `FastHash.KernelFastMap.constructor` | src/core/fast_hash.rs:97-102 | A new map is empty and has no buckets |
| `FastHash.KernelFastMap.Insert` | src/core/fast_hash.rs:192-205 | The map gains or replaces one pair and the old value is returned |
| `FastHash.KernelFastMap.Remove` | src/core/fast_hash.rs:207-218 | The map loses one key and its value is returned |
| `FastHash.KernelFastMap.Get` | src/core/fast_hash.rs:169-178 | The value of the key, from its own bucket only |
| `FastHash.KernelFastMap.EnsureCapacity` | src/core/fast_hash.rs:143-163 | Room for one more below three quarters, the same pairs, a power-of-two bucket count |
| `FastHash.KernelFastMap.Rehash` | src/core/fast_hash.rs:151-162 | Rehashing over twice the buckets preserves the map, each entry where its hash masks to |
| `FastHash.KernelFastMap.Allocate` | src/core/fast_hash.rs:134-141 | The requested number of empty buckets |
| `FastHash.KernelFastMap.Position` | src/core/fast_hash.rs:173-177 | The entry with this hash and key in a bucket, or none |
| `FastHash.KernelFastMap.Locate` | src/core/fast_hash.rs:207-214 | A key is found exactly when the map has it |
| `FastHash.PushRep` | src/core/fast_hash.rs:202-203 | A pushed entry extends the represented map |
| `FastHash.ReplaceRep` | src/core/fast_hash.rs:196-201 | A replaced value replaces it in the map |
| `FastHash.RemoveRep` | src/core/fast_hash.rs:216-217 | Swap-removal takes exactly one key out of the map |
| `TmpfsMount.Mount.constructor` | src/fs/tmpfs.rs:86-117 | A new mount has the root directory and nothing used; a limit of 0 becomes half of the memory |
| `TmpfsMount.Mount.GiveBack` | src/fs/tmpfs.rs:266-268 | Bytes are only given back when there are that many: no saturating subtraction saturates |
| `TmpfsMount.Mount.DropAndCreate` | src/fs/tmpfs.rs:277-310 | Creation has the specified effect and status, and keeps `used_bytes` equal to the bytes of all live inodes and within a non-zero limit |
| `TmpfsMount.Mount.WriteAllAt` | src/fs/tmpfs.rs:245-273 | A whole-file write, creating the file when missing, has the specified effect and status, and keeps `used_bytes` equal to the bytes of all live inodes and within a non-zero limit |
| `TmpfsMount.Mount.PWriteAt` | src/fs/tmpfs.rs:321-344 | A positional write has the specified effect and status, and keeps `used_bytes` equal to the bytes of all live inodes and within a non-zero limit |
| `TmpfsMount.Mount.TruncateAt` | src/fs/tmpfs.rs:346-369 | Truncation either way has the specified effect and status, and keeps `used_bytes` equal to the bytes of all live inodes and within a non-zero limit |
| `TmpfsMount.Mount.MkDirAt` | src/fs/tmpfs.rs:382-417 | Directory creation has the specified effect and status, and keeps `used_bytes` equal to the bytes of all live inodes and within a non-zero limit |
| `TmpfsMount.Mount.RmDirAt` | src/fs/tmpfs.rs:419-444 | Directory removal has the specified effect and status, and keeps `used_bytes` equal to the bytes of all live inodes and within a non-zero limit |
| `TmpfsMount.Mount.UnlinkAt` | src/fs/tmpfs.rs:446-476 | Unlinking, keeping the inode while names remain, has the specified effect and status, and keeps `used_bytes` equal to the bytes of all live inodes and within a non-zero limit |
| `TmpfsMount.Mount.LinkAt` | src/fs/tmpfs.rs:478-500 | Hard linking has the specified effect and status, and keeps `used_bytes` equal to the bytes of all live inodes and within a non-zero limit |
| `TmpfsMount.Mount.RenameAt` | src/fs/tmpfs.rs:502-542 | Renaming, also when it fails half way or removes a hard-linked victim, has the specified effect and status, and keeps `used_bytes` equal to the bytes of all live inodes and within a non-zero limit |
| `TmpfsMount.Mount.SymLinkAt` | src/fs/tmpfs.rs:544-580 | Symlink creation has the specified effect and status, and keeps `used_bytes` equal to the bytes of all live inodes and within a non-zero limit |
| `TmpfsMount.Mount.RemoveVictim` | src/fs/tmpfs.rs:518-531 | The renamed-over file goes, and its bytes are given back |
| `TmpfsMount.WriteReadBack` | src/fs/tmpfs.rs:245-273 | A written file reads back, and files with another inode read as before |
| `TmpfsMount.PWriteBytes` | src/fs/tmpfs.rs:321-344 | A positional write changes exactly its own bytes and fills a gap with zeros |
| `TmpfsMount.TruncateBytes` | src/fs/tmpfs.rs:346-369 | Truncation keeps the common prefix, fills with zeros, and touches no other inode |
| `TmpfsMount.UnlinkEffect` | src/fs/tmpfs.rs:446-476 | Unlinking removes the name; any other path reads as before exactly when it leads elsewhere or links remain |
| `TmpfsMount.LinkEffect` | src/fs/tmpfs.rs:478-500 | A hard link reads as the file it links to and disturbs no other path |
| `TmpfsMount.RenameFailsExactly` | src/fs/tmpfs.rs:502-542 | A rename fails exactly when the old name, its parent or the new parent is missing, or the new parent is one of the two names |
| `TmpfsMount.FailedRenameKeeps` | src/fs/tmpfs.rs:502-534 | A failed rename leaves the tree alone exactly when the old name or its parent was missing; otherwise both names are gone |
| `TmpfsMount.RenameMoves` | src/fs/tmpfs.rs:502-542 | After a successful rename the new name reads as the old one did exactly when the file did not replace another name of itself, and the old name is gone |
| `TmpfsMount.RenameKeepsOthers` | src/fs/tmpfs.rs:518-531 | Any third path reads as before exactly when it is not another name of the replaced file; such a name is left dangling |
| `TmpfsMount.RenameOverOwnLink` | src/fs/tmpfs.rs:518-531 | Renaming a file over another of its own names reports success and loses the file |
| `TmpfsMount.RenameOntoRoot` | src/fs/tmpfs.rs:518-534 | Renaming onto the mount's root fails and removes the root |
| `TmpfsMount.RenameBelowItself` | src/fs/tmpfs.rs:518-534 | Renaming a name to one below itself fails and removes the name |
| `TmpfsMount.RenameInodes` | src/fs/tmpfs.rs:518-531 | A successful rename drops the victim's inode and keeps the data of every other |
| `TmpfsMount.MkDirRmDir` | src/fs/tmpfs.rs:382-444 | Making a directory and removing it leaves every other path and the set of inodes as they were |
| `Tmpfs.HeldAdd` | src/fs/tmpfs.rs:277-310 | A new inode adds exactly its own length |
| `Tmpfs.HeldChildren` | src/fs/tmpfs.rs:303-308 | Directory entries weigh nothing |
| `Tmpfs.HeldSet` | src/fs/tmpfs.rs:245-273 | Replacing an inode shifts the total by the difference of lengths |
| `Tmpfs.HeldRemove` | src/fs/tmpfs.rs:446-476 | Removing an inode takes its length off the total |
| `Block.Device.ReadAt` | src/block/mod.rs:47-70 | The reported prefix of the buffer is the flat disk's bytes and the rest of the buffer is untouched; an error means nothing was moved; a short transfer happens only when the last sector operation failed or the disk ended |
| `Block.Device.WriteAt` | src/block/mod.rs:72-106 | Exactly the reported prefix is stored and every other byte of the flat disk is unchanged, even when a sector operation fails part way; a short transfer happens only when the last sector operation failed or the disk ended |
| `Block.ReadBack` | src/block/mod.rs:47-106 | A later read of what a write reported returns it |
| `Block.FlatStore` | src/block/mod.rs:92-94 | Storing a sector stores its 512 bytes of the flat disk and no others |
| `Block.FlatSector` | src/block/mod.rs:57-65 | A sector is its 512 bytes of the flat disk |
| `Block.PartStored` | src/block/mod.rs:80-94 | Read-modify-write of a sector stores just the changed part |
| `Msg.Run` | src/ipc/msg.rs:126-212 | Over every mix of sends, selectors, refusals and retries: of each type, received then queued messages are those sent, in order, and the counters are the real totals with bytes within the limit |
| `Msg.ReceivedPrefix` | src/ipc/msg.rs:162-212 | The messages received of each type are a prefix of those sent of that type |
| `Msg.EarliestOfType` | src/ipc/msg.rs:175-193 | Whatever the selector, the message taken is the earliest of its own type |
| `Msg.Select` | src/ipc/msg.rs:175-193 | Zero takes the first message, a positive selector the first of that type, a negative one the first of the least eligible type; nothing exactly when none is eligible |
| `Msg.SendCounted` | src/ipc/msg.rs:145-159 | Sending keeps the byte and message counts exact and within the limit |
| `Msg.ReceiveCounted` | src/ipc/msg.rs:195-205 | Receiving keeps the counts exact without saturation; a message that is too long, or none, leaves the queue unchanged |
| `Msg.StepKeeps` | src/ipc/msg.rs:126-212 | Every pass of either call keeps order and counts |
| `Msg.MsgQueue.constructor` | src/ipc/msg.rs:79-93 | A new queue is empty with the default byte limit |
| `Msg.MsgQueue.TrySend` | src/ipc/msg.rs:133-159 | One pass of a send has the specified effect and outcome |
| `Msg.MsgQueue.FindIndex` | src/ipc/msg.rs:175-193 | The two search loops find the selected message |
| `Msg.MsgQueue.TryReceive` | src/ipc/msg.rs:163-211 | One pass of a receive has the specified effect and outcome; a too-small one puts the message back |

## Left out

- Machine integers: lengths and offsets are unbounded where the source uses `usize` and no wrap-around is reachable in an image that exists; counters that wrap (`RingBuf`, io_uring) and fields of fixed width are modelled as such.
- exFAT `mount` and `discover_metadata`: the geometry, bitmap and up-case extents are given; the volume lock is not modelled.
- exFAT NoFatChain files, bad clusters and volume labels: the writer never makes them and the reader follows the FAT regardless.
- ExfatMain.WriteFileCorrect: contents are shorter than 2^64 bytes, the width of the size field.
- ExfatMain.RunKeepsWf: the same bound on each file written.
- ExfatSpace.WriteFileStatus: the same bound on the contents.
- JBD2 superblock fields that replay does not use (UUID, errno, checksum type and seed); `checksum_failures` is never set by the source.
- ext4 mounting, directories, symlinks and inode lookup; a callback that stops early sees a prefix of the emitted blocks.
- Ext4Walk.ReadInodeData: the emitted blocks are collected before they are copied, which is the same because the callback never stops the walk.
- Pipe descriptor tables, duplication and wait queues: opening and closing ends is an arbitrary step, and wake-ups may be spurious.
- Memory orderings weaker than sequential consistency in `RingBuf` and io_uring: steps interleave, they are not reordered.
- io_uring with a user that writes the submission ring directly, several kernel posters on one ring, and registration of buffers and files.
- flock permission and descriptor checks, and copying `struct flock` to and from user space.
- The hash function of `KernelFastMap`: any function from keys to numbers; iteration order and `clone`.
- tmpfs mount resolution, sub-path slicing, times, owners, modes, `statfs` and the scheme interface; paths are the ones inside the mount.
- Block.Device.WriteAt: a sector write that fails is taken to leave the sector as it was, and a sector past the end to fail.
- Message queue identifiers (and EIDRM for a removed queue), permissions (a parameter here), times and `msgctl`.
- Intrusive lists, overlayfs, ramfs, FAT32, NTFS, procfs and the other subsystems of the kernel.
