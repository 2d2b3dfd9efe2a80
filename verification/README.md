# AOWIS model store: a verified model

AOWIS keeps water-network models in a versioned store. Objects are rows with a
kind, a content and a version; a branch has one editable head; sealing a head
turns its rows into an immutable snapshot, the root of a Merkle radix tree over
UUID keys; branches are merged three ways, object by object and field by field.
This project models that store and proves what it promises.

The parts, and the files that hold them:

- **Nodes and content.** `Uuid`, `TreeNode`, `NodeCodec`, `ContentStore`: UUID
  nibbles in the octet layout of section 4.1.2 of RFC 4122, the node encoding
  (a bijection), and the deduplicating content store. The hash is a parameter;
  nothing assumes that it is injective. `ByteLayouts` spells out every stored and
  exchanged frame octet for octet.
- **The radix tree.** `RadixTree` is the trie as a value, with its shape rule
  and its meaning as a map. `TreeStore` says when a stored digest denotes such a
  trie. `TreeUpdate`, `TreeBuild`, `TreeBatch` with `TreeApply`, and `TreeRead`,
  `TreeScan`, `TreeDiff` are the ways to write and to read; `TreeHistory` shows
  that all of them agree on one root per map. `TreeParts` bounds what a batch can
  stage by its two maps, `TreeClash` says which collisions nothing can get
  around, and `CollidingBatch` is a batch that runs into one.
- **The working head.** `ModelRecord`, `Journal`, `UndoHistory`,
  `WorkingObjects`: versioned writes, the event journal, and persistent grouped
  undo and redo; `StaleWrites` shows that an old version gets nowhere.
  `RevisionSeal` and `JournalReplay` seal the head into a tree and check sealed
  journals; `JournalAudit` says what a journal that replays tells, event by event.
- **Merging.** `FieldMerge`, `ThreeWayMerge`, `MergeCursor`, `MergePreview`,
  `MergeCommit`, `MergeRevision`: the field merge, the three-cursor walk with its
  fast candidate scan, and the commit that realises the merge. `MergeLaws` and
  `MergeOutcome` say, on rows and fields alone, what changes are reported and
  where every object must end. `RepositoryMerge` puts them together, from the
  choice of the base to the sealed revision.
- **Revisions.** `RevisionAncestry` finds merge bases; `RevisionLifecycle` and
  `RepositoryModel` hold the invariant of a whole repository over create, edit,
  finalize, branch and merge, and the integrity checks on whatever the tables and
  the store hold; `HashChain` shows that a chain hash stands for a whole history.
- **Networks.** `NetworkModel`, `NetworkValidator`: the full validation of a
  network and its reference index; `NetworkRules` tells both by the fields of the
  entities alone. `IncrementalValidation`, `LocalValidation`,
  `TouchedNetworks`: the fast paths that skip it, and the transaction that may
  change roots as well. `NetworkRecords`, `NetworkSave`, `SealedNetworks`: saving
  whole networks, and loading them from the editable rows or from a sealed tree,
  with `SavedForm` for what that means entity by entity.
  `NetworkLimits` and `RetiredMembers`: what overlong and dropped members do.
- **Portable frames and the legacy mode.** `PortableFrame`, `RevisionManifest`,
  `OperationJournal`, `SnapshotHistory`: the manifest and journal frames, and
  whole-snapshot undo and redo.
- **Login throttle.** `LoginThrottle`.

Verify everything with `dafny verify dfyconfig.toml`.

## What the proofs found

- **Kinds are checked too late.** An edit group does not check the characters
  of an object's kind (src/object_groups.cpp:106-158), but the record decoder
  does (src/revision_root.cpp:62-129). An accepted edit can therefore seal a
  revision that cannot be read back. Reading and verifying succeed exactly if
  every sealed kind is legal (`JournalReplay.UncheckedKind`,
  `RevisionSeal.ReadRevisionObjects`, `RepositoryModel.Repository.VerifyProject`);
  merging needs it of the base and the other revision only
  (`RepositoryMerge.MergeObjectRevisions`), branching needs it and more, see below.
- **Batch staging does not notice collisions.** A staged node whose digest is
  already staged is dropped without comparing payloads
  (src/merkle_tree.cpp:419-432), while bulk build and single updates compare
  them. What a batch stages are parts of the old and the new map, the nodes of
  the tries of their entries below some path; if those collide neither with each
  other nor with stored rows (`TreeParts.BatchClean`, a condition on hash, rows
  and maps), the batch is right (`TreeApply.Apply`). Where the new tree itself
  collides nothing can be right (`TreeClash.ClashBlocks`). On an empty tree this
  is the exact condition, and the batch answers even where only its own nodes
  collide: `CollidingBatch.AnswersWrong` returns a digest that, as
  `CollidingBatch.BatchGoesWrong` shows, is no root. For build the condition is
  exact as well, but there a collision refuses (`TreeBuild.Build`).
- **A new project cannot be sealed before its first edit.** Its head is not in
  object mode (src/database.cpp:184-293) and has no snapshot, so finalizing finds
  nothing to seal (src/database.cpp:748-776). The first journaled write switches
  the mode on (src/objects.cpp:376-401). Without a digest collision, a head can be
  sealed if and only if it is at the expected generation and in object mode, which
  is to say that it has a parent or an event
  (`RepositoryModel.NewProjectUnsealable`, `RepositoryModel.BlankHead`,
  `RepositoryModel.Repository.Finalize`).
- **The chain hash does not bind the object mode.** The preimage has 32 zero
  octets both for a missing object root and for an all-zero one
  (src/revision_manifest.cpp:119-126). It binds every other field exactly
  (`RevisionManifest.ChainBinds`, `RevisionManifest.ModeNotBound`).
- **A dropped network member cannot be saved again.** Saving a network without a
  member leaves a tombstone, and a later save that lists it again takes the
  tombstone for a foreign object (src/model_persistence.cpp:1600-1609). In any
  run of saves it stays out (`RetiredMembers.DroppedStaysOut`); an undo of the
  save, or an edit of the single object, brings it back.
- **Networks are written without the reader's limits.** The decoders refuse a
  root or an entity of more than 256 MiB and any list of more than 1,000,000
  elements (src/model_persistence.cpp:528-534, src/model_codec.cpp:215-262), the
  encoders write any length. A saved network loads again exactly if its root and
  every entity are within these limits (`NetworkSave.StoredReadsBack`). A save
  beyond them goes through, but what it leaves, and a revision sealed from that,
  cannot be branched, although all its kinds are legal
  (`NetworkLimits.SaveRebuildable`, `NetworkLimits.SavedButUnreadable`,
  `RepositoryModel.Repository.CreateBranch`); in any run of saves, a root
  beyond them blocks all later ones of its network
  (`NetworkLimits.UnreadableBlocks`).
- **Some journals cannot be exported.** Editing has no limit, the journal
  verifier takes at most 256 MiB (src/revision_manifest.cpp:293-301), and the
  export first encodes the manifest, which takes texts up to 8 MiB that survive
  UTF-8 (src/revision_manifest.cpp:79-132), while finalizing checks neither. The
  export succeeds exactly if manifest and journal pass
  (`SnapshotHistory.SnapshotHead.ExportOperationJournal`,
  `SnapshotHistory.LongJournal`, `SnapshotHistory.LongTitle`).

## How the model stands to the code

Loops over mutable state are methods with loops, objects with fields are
classes (`Store`, `Batch`, `WorkingHead`, `LiveObjectCursor`, `Repository`,
`NetworkReferenceValidator`, `HydraulicIndexes`, `NetworkStore`,
`SnapshotHead`, `Throttle`), and each method is proved against a function or a
relation on values; the lemmas about those are the promises. A database
transaction is one method that restores the saved state when it fails. Hash
functions, entity codecs, UTF-8 conversion, the network validator of a generic
edit, the reference graph of a saved network and the diff visitor are function
parameters.

`DenotesMap(h, rows, root, m)` means that every node below `root` is present,
undamaged and well shaped, and that the tree holds exactly the entries of `m`.
Statements about a method that may run on a damaged store are made for every
map that the root denotes. `Sound(base, head)` is the invariant of a working
head: the journal replays from the base to the rows, the groups partition it,
and the live contents are the base with the applied units replayed.

The methods are proved against functions that follow the code step by step. What
those functions mean is stated a second time without them: a write in
`WorkingObjects.UpToDate` and `WorkingObjects.Overwritten`, a merge in
`MergeLaws.TrueChanges` and `MergeOutcome.MergesTo`, a seal in
`RepositoryModel.SealSpelled`, a valid network in `NetworkRules.Ruled`, a saved
one in `SavedForm.SavedOver`. The contracts of the operations give both forms.

## Model

| member | source | states |
|---|---|---|
| Uuid.UnpackKey | src/merkle_tree.cpp:33-45 | The 32 nibbles are the high and low half of each of the 16 octets, in order. |
| Uuid.PackKey | src/merkle_tree.cpp:47-58 | The UUID whose nibbles these are: the inverse of unpacking. |
| Uuid.OctetOrderIsNibbleOrder | src/merkle_tree.cpp:905-907 | Comparing two octet strings is comparing their nibble strings, so the sort order is the order of the tree's edges. |
| Uuid.LessMeans | src/merkle_tree.cpp:905-907 | One octet string is below another exactly if it is smaller at the first octet that differs, or a proper prefix. |
| TreeNode.MaskOfBits | src/merkle_tree.cpp:98-107 | Every 16-bit number is the mask of its bits: no child bitmap is lost or read twice. |
| TreeNode.EncodeInjective | src/merkle_tree.cpp:82-111 | Two well-shaped nodes with the same encoding are the same node, even when they stand at different depths. |
| NodeCodec.EncodeNode | src/merkle_tree.cpp:82-111 | The loops write exactly the canonical encoding: odd prefixes padded with a zero nibble, children in bitmap order. |
| ByteLayouts.NodeLayout | src/merkle_tree.cpp:82-111 | A stored node, octet for octet: the magic text, the prefix length, two nibbles to an octet with the earlier one high, a flag with the value digest, 16 bits with the last edges in the first octet, and the child digests in edge order. |
| NodeCodec.DecodeNode | src/merkle_tree.cpp:113-219 | Succeeds exactly on the encodings of nodes well shaped at that depth and gives back that node: other padding, order, lengths and trailing bytes are refused. |
| NodeCodec.ChildDigests | src/merkle_tree.cpp:594-629 | The digests found by reading the bytes alone are the children of the node the payload encodes. |
| ContentStore.Store.GetMany | src/content_store.cpp:126-207 | All requested digests with their payloads, or nothing; it fails exactly when one of them is missing, of another kind, or stored with a payload that does not hash to it. |
| ContentStore.Store.PutManyPrepared | src/content_store.cpp:209-386 | Succeeds exactly if kinds agree and no digest stands for two payloads, in the batch or against a stored row; then exactly the batch has been added. |
| ContentStore.Store.Put | src/content_store.cpp:401-434 | Inserts once; a row already under the digest must hold these very bytes. |
| RadixTree.SomeKey | src/merkle_tree.cpp:113-153 | A well-shaped nonempty subtree holds a key on every given path: the shape rule leaves no empty nodes. |
| RadixTree.Canonical | src/merkle_tree.cpp:113-153 | Two tries that satisfy the shape rule at every depth and answer every key alike are the same trie. |
| RadixTree.UniqueTree | src/merkle_tree.cpp:113-153 | A map has one valid trie. |
| RadixTree.JoinFind | src/merkle_tree.cpp:326-337 | Re-compressing a branch that kept one child changes no answer. |
| RadixTree.SplitFind | src/merkle_tree.cpp:273-296 | Cutting a compressed path in two changes no answer. |
| TreeStore.LoadValid | src/merkle_tree.cpp:221-229 | Whatever loads completely from a digest is a trie that satisfies the shape rule at every depth. |
| TreeStore.UniqueRoot | src/merkle_tree.h:96-99 | Two complete stored trees for one map have the same root digest, in any two stores and however they were built; no assumption on the hash is made. |
| TreeStore.RootsPersist | src/merkle_tree.cpp:231-237 | What a root denotes is unaffected by anything stored later. |
| TreeStore.SaveNode | src/merkle_tree.cpp:231-237 | A well-shaped node over stored children is stored and stands for the trie they make, or a row under its digest holds something else. |
| TreeUpdate.FinishNode | src/merkle_tree.cpp:323-338 | The branch after a change: dropped, merged with its only child, or stored; the result is the canonical trie of its children. |
| TreeUpdate.SplitInsert | src/merkle_tree.cpp:273-296 | A key that leaves a compressed path: the path is cut, and exactly that key is added. |
| TreeUpdate.ChangeSubtree | src/merkle_tree.cpp:257-339 | Below a sound digest the key gets the value or loses it, every other key keeps its value, and a change that alters nothing returns the same digest and stores nothing. |
| TreeUpdate.Update | src/merkle_tree.cpp:978-1002 | On a root for m the new root denotes m with one key written; an idle write returns the same root; it is refused only for an unknown blob or a digest collision. |
| Changes.WriteAllPerm | src/merkle_tree.cpp:1004-1030 | Changes to distinct keys may be written in any order. |
| Changes.WrittenMeans | src/merkle_tree.cpp:1004-1030 | A batch of distinct keys gives each of them its own blob, or nothing, and leaves every other key alone. |
| SortedRange.EndsDecidePath | src/merkle_tree.cpp:363-375 | The common prefix of a sorted range is fixed by its first and last key. |
| SortedRange.EdgesAscend | src/merkle_tree.cpp:376-390 | Below a shared path the next nibbles of a sorted range ascend, so each edge is one contiguous run. |
| SortedRange.RunEnd | src/merkle_tree.cpp:380-383 | The end of the run of entries that take the same edge. |
| TreeBuild.BuildRange | src/merkle_tree.cpp:349-398 | A sorted range becomes the valid trie that answers exactly like the range, each of its nodes listed once hashed and nothing else; it fails only on a repeated key. |
| TreeBuild.Build | src/merkle_tree.cpp:1091-1159 | The root denotes the map of the entries; it is refused exactly for deletions, repeated keys, unknown blobs, or a digest collision inside that map's tree or with stored content. |
| TreeRead.LookupKey | src/merkle_tree.cpp:859-884 | On a root for m: the value of the key, or absent, never an error. |
| TreeRead.KeysAscend | src/merkle_tree.cpp:896-907 | The keys of a batched lookup, sorted by nibbles, list their UUIDs in ascending octet order. |
| TreeRead.LookupMany | src/merkle_tree.cpp:886-976 | On a root for m the result is exactly m restricted to the requested keys. |
| TreeParts.WithinSlice | src/merkle_tree.cpp:594-629 | Every subtrie of the trie for a map is the trie of that map below some path, so what a batch may stage is decided by the two maps alone. |
| BatchStage.Batch.StageItem | src/merkle_tree.cpp:419-432 | A staged node can be found under its digest, and a node staged before keeps its payload; if only parts of the old and the new map are staged and those do not collide, the payload found is the given one. |
| BatchStage.Batch.ReadBatchNode | src/merkle_tree.cpp:434-454 | Staged nodes are read first, then the cache, then the store; the node is checked against its digest and depth. |
| TreeBatch.FinishBatchNode | src/merkle_tree.cpp:488-508 | The in-memory counterpart of the branch rule: if the children tell the new map below a path, and parts of the two maps do not collide, the digest is that of the canonical trie of the children. |
| TreeBatch.RewriteSubtree | src/merkle_tree.cpp:510-592 | Below a digest that tells the old map, a range that leads to the new map gives the digest of the trie overridden by the range, with every new node staged, through splits, merges and deletions; nothing but parts of the two maps is staged, and only their collisions can spoil it. |
| TreeApply.CollectReachable | src/merkle_tree.cpp:594-629 | Selects each newly visited staged node once, with its staged payload, and only nodes of the trie under the given digest. |
| TreeApply.Apply | src/merkle_tree.cpp:1004-1089 | On a root for m, distinct keys and known blobs give a root for m with all changes written, unless parts of the two maps collide with each other or with stored rows; on the empty map the result is right exactly if the new tree does not clash, and an answer comes even if it does, as long as stored rows are not in the way; a batch that changes nothing returns the same root; every row added is a node of the new tree. |
| TreeClash.ClashBlocks | src/merkle_tree.cpp:231-237 | Where two nodes of a map's tree share a digest, or one has the digest of other stored content, no root ever denotes that map, whatever is stored later. |
| CollidingBatch.BatchGoesWrong | src/merkle_tree.cpp:419-432 | A concrete hash, store and batch of two puts, legal in every other way, for which no digest at all is a root of the written map. |
| CollidingBatch.AnswersWrong | src/merkle_tree.cpp:419-432 | On that batch the code does not refuse: it returns a digest, which is not a root of the written map. |
| TreeDiff.DiffWalk | src/merkle_tree.cpp:739-810 | Two tries aligned at a path, of whatever shapes: the true differences below it are reported in order, up to where the visitor stopped. |
| TreeDiff.Diff | src/merkle_tree.cpp:821-857 | Each key whose value differs is reported exactly once, in ascending UUID order, with its values before and after; it ends early only where the visitor refused. |
| TreeScan.ScanBatched | src/merkle_tree.cpp:635-707 | Lists every key with its value, sorted and once, exactly when every node below the root is present, undamaged and well shaped; a cache keeps holding verified payloads only. |
| TreeScan.Entries | src/merkle_tree.cpp:1161-1170 | On a root for m the list is sorted, free of duplicates, and says of every key what m says. |
| TreeScan.EntriesCached | src/merkle_tree.cpp:1217-1227 | The same list and the same failures through a cache of verified payloads. |
| TreeHistory.FoldUpdates | src/merkle_tree.cpp:978-1002 | Single updates one after the other reach a root for the map with all of them written, and stop only at a write whose tree collides with stored content. |
| TreeHistory.ReadYourWrites | src/merkle_tree.cpp:1004-1089 | After a batch without collisions every changed key reads its own new blob, or nothing if it was deleted, and every other key reads what it read before. |
| TreeHistory.OneRootForAnyOrder | src/merkle_tree.cpp:1004-1089 | A batch and a fold of single updates over the same distinct changes, in any order and in any two stores, end in one digest. |
| TreeHistory.WriteBackRestoresRoot | src/merkle_tree.cpp:257-339 | Writing a key and writing its old state back leads to the earlier root: re-compression leaves no trace. |
| TreeApply.OneMapPerRoot | src/merkle_tree.cpp:1161-1170 | A root denotes one map only. |
| ModelRecord.EncodeRecord | src/revision_root.cpp:35-50 | The record is magic, kind, version, tombstone flag and content, framed by 64-bit lengths. |
| ByteLayouts.RecordLayout | src/revision_root.cpp:35-50 | An object record, octet for octet: magic text, length and kind, version, and either 1 for a tombstone or 0, length and content; numbers are eight octets, highest first. |
| ModelRecord.DecodeRecord | src/revision_root.cpp:62-129 | Accepts exactly the records of readable rows, and gives back the row. |
| ModelRecord.RecordInjective | src/revision_root.cpp:35-50 | Different readable rows have different records: version and tombstone are sealed too. |
| ModelRecord.ReadBack | src/revision_root.cpp:62-129 | A row that the tables allow can be read back exactly when its kind has only legal characters. |
| Journal.TouchAllGrows | src/objects.cpp:422-455 | Writes never remove a row, change its kind or lower its version, and leave other objects alone. |
| Journal.WrittenPlays | src/objects.cpp:466-494 | Playing the journaled events of a write sequence over the live contents gives the live contents after it. |
| Journal.StacksInRange | src/object_groups.cpp:229-263 | Only edit groups are ever on the undo and redo stacks. |
| Journal.LineSteps | src/object_groups.cpp:229-263 | An edit drops what could be redone; undo and redo only move along the line of history. |
| UndoHistory.StepAccepted | src/object_groups.cpp:303-347 | Each compensating write finds the state it expects and is accepted by the version check. |
| UndoHistory.Compensates | src/object_groups.cpp:303-347 | The compensating writes of a unit take the live contents exactly one unit back, or forward. |
| UndoHistory.GroupsKept | src/object_groups.cpp:52-104 | Closing a group keeps the groups a partition of 1..generation, with one event per object, and leaves earlier units alone. |
| UndoHistory.EditSound | src/object_groups.cpp:106-158 | An accepted group of edits keeps the head sound and becomes the last unit of its history line. |
| UndoHistory.TargetCompensable | src/object_groups.cpp:264-347 | On a sound head the next undo or redo finds a nonempty unit and no conflict at any of its steps. |
| UndoHistory.MoveSound | src/object_groups.cpp:213-362 | Undo and redo keep the head sound and the line unchanged, move one unit along it, and the live contents are the base with the applied units replayed. |
| UndoHistory.PlaceDecides | src/object_groups.cpp:213-362 | The line and the place on it decide all live contents. |
| UndoHistory.UndoThenRedo | src/object_groups.cpp:201-362 | Undo followed by redo restores every object; versions and the generation have only grown. |
| WorkingObjects.WorkingHead.Modify | src/objects.cpp:348-497 | A write is accepted exactly if it carries the version of its object's row, or -1 if there is none, changes the content, and keeps the row's kind if it is live; then the row has the next version, one event tells before and after, and nothing else changes. |
| WorkingObjects.WorkingHead.WriteGroup | src/object_groups.cpp:52-104 | A group is written exactly if there are new events and all of them are the actor's; it links the whole new range. |
| WorkingObjects.WorkingHead.CommitGroup | src/object_groups.cpp:106-158 | Commits exactly nonempty groups of distinct objects at the head's generation, each edit carrying the version its row had before the group, whose result the validator accepts; then every edited row has its new content and next version under its old kind, one event each and one group are added, and no other row changes; otherwise nothing does. |
| StaleWrites.Refusals | src/objects.cpp:422-441 | What refuses a write: a null identifier, another version than the row's, a deletion of what is not there, content that is there already, and live content of another kind than the row's. |
| StaleWrites.WriteTwice | src/objects.cpp:422-441 | After an accepted write of an object, a write that carries the version from before it is refused and changes nothing. |
| StaleWrites.CommitTwice | src/object_groups.cpp:106-158 | After a group was committed, another one that carries the version from before it for one of its objects is refused at every generation and changes nothing. |
| WorkingObjects.WorkingHead.ReadStacks | src/object_groups.cpp:229-263 | The loop over the groups yields the undo and redo stacks, or none for a broken chain. |
| WorkingObjects.WorkingHead.CompensateEach | src/object_groups.cpp:303-347 | On a state that shows the unit, no step conflicts and the writes are the unit's reversal or repetition. |
| WorkingObjects.RevertedOnce | src/object_groups.cpp:303-347 | There is one set of rows only in which a unit is taken back, or forth. |
| WorkingObjects.MoveReverts | src/object_groups.cpp:303-347 | The compensating writes of the unit on top of a stack take exactly its objects back, or forth. |
| WorkingObjects.WorkingHead.Compensate | src/object_groups.cpp:213-362 | Undo and redo are carried out exactly if the generation is right, the stack is not empty and the validator accepts; every object of the unit then shows what it showed before the unit, or after it, in its next version, no other row changes, and one group names the unit; the conflict and broken-chain branches are never taken. |
| JournalReplay.RunSound | src/object_groups.cpp:106-362 | Every run of edit groups, undos and redos keeps the head sound; rows, kinds, versions and the generation only grow. |
| JournalReplay.RunContents | src/objects.cpp:348-497 | After any run: live contents are the base with the applied units replayed, events are numbered 1..generation, and replaying them gives the rows, versions and tombstones included. |
| JournalReplay.GroupOf | src/object_groups.cpp:52-104 | Each event belongs to exactly one group. |
| JournalReplay.UncheckedKind | src/object_groups.cpp:106-158 | The group write does not check the kind's characters: an edit it accepts can make a row whose sealed record cannot be read. |
| RevisionSeal.StoreRecords | src/revision_root.cpp:164-242 | The records are stored and digested; refused exactly for a null identifier or a digest collision. |
| RevisionSeal.OneRootPerSnapshot | src/revision_root.cpp:164-242 | One set of objects has one root, however it was sealed. |
| RevisionSeal.BuildRevisionRoot | src/revision_root.cpp:164-242 | Rewriting only the journaled objects on the parent's tree gives the same snapshot as sealing all rows; without a parent it is refused exactly for a null identifier or a digest collision, and on a parent only a collision among the new records or the parts of the two trees can prevent it. |
| RevisionSeal.ReadEntries | src/revision_root.cpp:289-314 | The rows behind the entries in order, all or an error. |
| RevisionSeal.ReadRevisionObjects | src/revision_root.cpp:260-287 | Exactly the sealed objects, versions and tombstones included, if every kind is legal; otherwise an error. Whatever is read from a root, in whatever store, is what the root stands for. |
| JournalReplay.VerifyJournalReplay | src/revision_root.cpp:365-492 | In any store, tampered with or not, it accepts exactly the journals that account for the sealed objects: both snapshots can be read, events are in order, each tells the truth about the row it finds and takes the next version, and the last event of each object is its sealed row. |
| JournalAudit.LeadsToIs | src/revision_root.cpp:405-460 | A journal replays to some rows exactly if each event names the version, content and kind left by the last event before it on that object, or by the start, and the last events leave those rows. |
| JournalReplay.SealedJournalAccepted | src/revision_root.cpp:365-492 | The journal of every sound head replays from its base to its rows, so sealing never produces a revision that the check refuses for its journal. |
| FieldMerge.MergeAppendedTags | src/model_codec.cpp:2219-2249 | Merges two tag lists exactly if both only append new, nonempty, distinct tags: left's list followed by right's additions. |
| FieldMerge.TagsConserved | src/model_codec.cpp:2219-2249 | No tag of either side is lost and none invented; the condition treats the sides alike. |
| FieldMerge.FieldSettled | src/model_codec.cpp:2251-2318 | A field clashes exactly if a value does not encode, or both sides changed it differently without appended tags or a choice; otherwise it takes the one change there is, all tags of both sides, or one whole side; swapping the sides changes nothing but the order of tags. |
| FieldMerge.MergeModelFields | src/model_codec.cpp:2930-2978 | The whole entity: the merged content, or the clashing names in schema order, or no field merge at all for oversized, unknown or unreadable contents. |
| FieldMerge.NoUpdateLost | src/model_codec.cpp:2287-2316 | Without a clash every field that one side changed has that side's value and every field nobody changed its old one. |
| FieldMerge.ChoicesSettle | src/model_codec.cpp:2311-2316 | Choices are used for clashing fields only, and settle exactly those that encode on all three sides. |
| FieldMerge.ChoicesSuffice | src/model_codec.cpp:2311-2316 | Choices for exactly the clashing names leave no clash, if the fields encode. |
| FieldMerge.SidesAlike | src/model_codec.cpp:2251-2318 | The same names clash whichever side is called left. |
| ThreeWayMerge.WalkSkips | src/object_merge_preview.cpp:458-461 | Unchanged objects add nothing, neither to the list nor to the limits. |
| ThreeWayMerge.CoveringListsAgree | src/object_merge_preview.cpp:327-395 | Any two ascending listings that cover the changed objects give the same changes, kinds and limit outcome: candidates only is as good as everything. |
| ThreeWayMerge.WalkIsChangeList | src/object_merge_preview.cpp:426-515 | A walk that is not stopped lists exactly the changed objects, ascending, each rightly classified. |
| ThreeWayMerge.LimitsExact | src/object_merge_preview.cpp:463-485 | A preview is refused exactly when the number of changes or the bytes they hold exceed a limit. |
| MergeCursor.LiveObjectCursor.Advance | src/object_merge_preview.cpp:110-171 | On a healthy source the next live object, in order; tombstones are skipped, and nothing is left out. |
| MergeCursor.EnteredShows | src/object_merge_preview.cpp:63-91 | The tree entries of a readable snapshot, or of selected keys of it, stream exactly the visible live objects in ascending order. |
| MergeCursor.ListEntries | src/object_merge_preview.cpp:63-91 | The entries of the selected keys that the tree holds, or of all keys, in key order. |
| MergeCursor.QueryRows | src/object_merge_preview.cpp:93-107 | The live rows of an editable head in UUID order. |
| MergePreview.UnchangedKey | src/object_merge_preview.cpp:327-347 | An object with one digest in all three trees did not change: version and tombstone are part of the digest. |
| MergePreview.FindCandidates | src/object_merge_preview.cpp:335-379 | The candidates are exactly the keys on which a tip differs from the base, and contain every changed object; the scan gives up only if more than the limit differ. |
| ThreeWayMerge.KindsMean | src/object_merge_preview.cpp:487-511 | The kind says who changed the object and whether the two changes combine; with the sides swapped a one-sided change is the other side's and the clashing names are the same. |
| MergePreview.CompareOne | src/object_merge_preview.cpp:426-514 | One step of the three-cursor loop is one step of the walk, limits and conflict count included. |
| MergePreview.CompareObjects | src/object_merge_preview.cpp:426-515 | The three-cursor loop computes the walk over the listed objects. |
| MergePreview.Preview | src/object_merge_preview.cpp:265-526 | With or without candidates, the outcome is that of comparing all objects: if changes and payloads are within the limits, exactly the changed objects in order, each with what the three sides hold, who changed it, the merged fields, or the names to decide; else a limit that is exceeded. Against an editable head it completes only if base and right snapshot can be read back in full. |
| MergePreview.PreviewMeans | src/object_merge_preview.cpp:265-526 | A preview that completes is the one true list of changes; otherwise that list, or its content, exceeds the named limit. |
| MergeLaws.DisputedIs | src/model_codec.cpp:2251-2318 | The names to decide are exactly the fields that both sides changed differently, other than by appending tags, and those that do not encode. |
| MergeLaws.ListTrue | src/object_merge_preview.cpp:426-515 | A change list reports exactly the objects that a side changed, in order, each as the rows of the three sides show it. |
| MergeLaws.FieldsMergedMean | src/object_merge_preview.cpp:496-510 | The merged object of a field merge, field by field through the codec: the kind is the common one, a field that one side changed has that side's value, a common change stays, appended tags of both sides are there, the rest is the base's. |
| MergeCommit.SelectResolutions | src/object_merge_commit.cpp:108-118 | Resolutions are accepted exactly if their objects are distinct and not null. |
| MergeCommit.CheckChoices | src/object_merge_commit.cpp:143-156 | Field choices are accepted exactly if they name the conflicting fields, each once. |
| MergeCommit.EditFor | src/object_merge_commit.cpp:119-197 | One change with its resolution: the edit that realises it, none if the left side already has it, or a refusal; what that leaves in the rows is MergeOutcome.NothingLost and MergeOutcome.ChoicesHeld. |
| MergeCommit.SelectEdits | src/object_merge_commit.cpp:119-197 | Succeeds exactly if every change is settled, and then yields the edits in order. |
| MergeCommit.ExactlyTheConflicts | src/object_merge_commit.cpp:198-210 | The size comparison is enough: it holds exactly if the resolutions are those of the conflicts and nothing else. |
| MergeCommit.SettledExplicitly | src/object_merge_commit.cpp:123-130 | A conflict is settled by a resolution only, and nothing else takes one. |
| MergeOutcome.NothingLost | src/object_merge_commit.cpp:119-197 | In the merged rows an object shows right's version if base and left show the same, stays the very row it is if base and right, or left and right, show the same, and shows the chosen side's if its conflict was resolved as a whole; only conflicts are resolved. |
| MergeOutcome.ChoicesHeld | src/object_merge_commit.cpp:131-170 | With field choices, each clashing field read through the codec has the value of the side chosen for it, and every other field its only change, the common one, or the tags of both sides. |
| MergeRevision.CommitMerge | src/object_merge_commit.cpp:264-300 | The merge is written exactly if generation, resolutions, kinds and validator allow it, as one group of edits; otherwise nothing changes. |
| MergeRevision.MergeRealised | src/object_merge_commit.cpp:119-300 | The edits of an acceptable merge lead to rows in which every object ends as the merge demands, and an object the left side already shows keeps its very row. |
| MergeRevision.CarriedIs | src/object_merge_commit.cpp:55-300 | A completed preview can be carried out exactly if the merge is admitted, and leads to nothing but the admitted rows. |
| MergeRevision.MergeableIs | src/object_merge_commit.cpp:55-300 | A merge can be carried out exactly if generation and resolutions are right and there are rows that every object's merge ends in and that the validator accepts; those rows are then the result. |
| MergeRevision.MergeIntoHead | src/object_merge_commit.cpp:55-300 | Carried out exactly if both snapshots can be read back, the changes are within the limits, generation and resolutions are right, and rows in which every object ends as a merge demands exist and satisfy the validator; the head then has those rows, else it is as before. |
| RevisionAncestry.CollectAncestors | src/revision_ancestry.cpp:21-56 | Succeeds exactly if every revision reached is known, of the project, and finalized beyond the start; then the set is the ancestor closure. It ends on cyclic data too. |
| RevisionAncestry.CollectDominated | src/revision_ancestry.cpp:105-123 | Exactly the revisions at least one edge above some common revision. |
| RevisionAncestry.CompareRevisions | src/revision_ancestry.cpp:60-128 | Fails exactly for unknown or unsound histories; the bases are exactly the common revisions that are not proper ancestors of another one, sorted. |
| RevisionAncestry.Maximal | src/revision_ancestry.cpp:96-123 | In an acyclic history every nonempty set has a member that is above none of the others. |
| RevisionAncestry.BaseExists | src/revision_ancestry.cpp:96-123 | A merge base exists whenever there is a common revision. |
| RevisionAncestry.BaseBelow | src/revision_ancestry.cpp:96-123 | Every common revision lies on or above some merge base. |
| RevisionAncestry.AncestorIsBase | src/revision_ancestry.cpp:96-128 | A finalized side that the other one descends from is the only base. |
| RevisionAncestry.BaseFinalized | src/revision_ancestry.cpp:21-56 | A merge base is a finalized revision. |
| RevisionLifecycle.NoCycle | src/database.cpp:797-1018 | No path of parent edges returns to its start. |
| RevisionLifecycle.BranchAdded | src/database.cpp:558-706 | A new project or branch keeps the whole repository invariant. |
| RevisionLifecycle.SealKeeps | src/database.cpp:797-1018 | Sealing a head and starting its successor keeps the whole invariant: one working head per branch, numbers 1 to n, finalized parents, intact seals. |
| RevisionLifecycle.ArchivedStays | src/database.cpp:797-1018 | A sealed snapshot stays readable whatever is stored later. |
| HashChain.RepositoryLinked | src/database.cpp:870-890 | In every reachable repository each sealed revision's chain hash is taken over its own record and, for each parent in order, the chain hash of that parent's seal. |
| HashChain.SameSeal | src/database.cpp:1205-1225 | One chain hash means one identifier, one record and parents with one chain hash each. |
| HashChain.ChainFixesHistory | src/database.cpp:1205-1225 | Where chain hashes do not collide, two sealed revisions with one chain hash, in any two linked projects, have the same ancestors with the same records: project, branch, number, parents, details and all hashes. |
| RepositoryModel.EditKeeps | src/objects.cpp:322-346 | Edits of a working head touch nothing that is sealed. |
| RepositoryModel.FirstParent | src/database.cpp:1020-1092 | The journal of every sealed revision starts from its first parent's snapshot and replays to its own. |
| RepositoryModel.Repository.CreateProject | src/database.cpp:184-293 | Succeeds exactly for a valid name: a project with a main branch and its first working revision, number 1 and not yet in object mode; everything else stays. |
| RepositoryModel.Repository.CreateBranch | src/database.cpp:558-706 | Succeeds exactly for a name that is not blank, at most 256 characters and not yet taken in the project, on a finalized revision of the project whose kinds are all legal and whose networks all load and share no member; the new head takes over its rows and its object mode. |
| RepositoryModel.Repository.Finalize | src/database.cpp:797-1018 | Without a digest collision among the inputs it succeeds if and only if the head is at the expected generation and in object mode; without a parent a collision always refuses. The seal then holds the details, the hash of the journal's manifest, the history hash, and the chain hash of the record spelled out with each parent's recorded chain hash; the blank successor has the next number, nothing else changes, and the repository is valid; a refusal changes nothing. |
| RepositoryModel.BlankHead | src/objects.cpp:376-401 | On every reachable repository a head is in object mode exactly if it has a parent or a journaled event; otherwise it has no rows, is at generation 0, and cannot be sealed at any generation. |
| RepositoryModel.NewProjectUnsealable | src/database.cpp:748-776 | The head of a new project cannot be sealed at any generation; it can as soon as an event is journaled, and not before. |
| RepositoryModel.NeverTwoHeads | src/database.cpp:905-1010 | Marking, inserting the successor, finalizing and linking end in the published records, and after none of the steps does a branch have two working revisions. |
| RepositoryModel.Repository.MergeAndFinalize | src/object_merge_commit.cpp:212-320 | A legal merge target is sealed with the right revision as second parent unless digests collide, its chain hash taken over both parents' chain hashes; a refusal changes nothing. |
| RepositoryMerge.ChooseBase | src/object_merge_preview.cpp:288-300 | A base is chosen exactly if the histories have one merge base only and neither finalized tip descends from the other; it is that base, and finalized. |
| RepositoryMerge.MergeObjectRevisions | src/object_merge_commit.cpp:55-320 | The whole merge: it succeeds only for a possible target with exactly one merge base and a legible base and right revision, and then the sealed revision has both tips as parents and shows, for every object, the three-way merge against that base; for such a target it is refused if the request cannot be carried out, and sealed if it can, the tables hold the rows and no digests collide. No other sealed revision matters. |
| RepositoryModel.Repository.VerifyProject | src/database.cpp:1094-1235 | Whatever was done to tables and store, a project verifies exactly if none of its sealed revisions was altered: root readable in full, manifest, snapshot, history and chain hash as recorded, parents sealed in the project. Every verified project is linked. On a reachable repository that is the case exactly if all sealed kinds are legal. |
| RepositoryModel.Repository.VerifyProjectJournal | src/database.cpp:1020-1092 | The deep check accepts exactly the projects that verify and in which every journal accounts for its sealed objects from its first parent's snapshot on; on a reachable repository it finds nothing more than the plain check. |
| RepositoryModel.HistoriesSound | src/revision_ancestry.cpp:21-56 | The revision graph of every reachable repository is acyclic and sound, so merge bases can always be found. |
| NetworkModel.ReferenceIsLink | src/model_validation.cpp:202-208 | The reference index holds exactly the set reference fields. |
| NetworkRules.SoundIs | src/model_validation.cpp:66-176 | What the validator checks, list by list, is what each field of each kind of entity must observe. |
| NetworkRules.ListingIs | src/model_validation.cpp:66-176 | The references collected of an entity are exactly its fields. |
| NetworkRules.IndexIs | src/model_validation.cpp:202-219 | An index is the recomputed one exactly if it has an entry for every set field and no other. |
| NetworkValidator.NetworkReferenceValidator.Register | src/model_validation.cpp:187-200 | Registers an identifier in the categories of its kind; a null or repeated one is an issue. |
| NetworkValidator.NetworkReferenceValidator.CheckLinks | src/model_validation.cpp:202-219 | Collects the set references in order and reports exactly the unresolved ones. |
| NetworkValidator.NetworkReferenceValidator.CheckAttachment | src/model_validation.cpp:117-135 | Reports exactly a position out of range or an assigned junction that is no end of the pipe. |
| NetworkValidator.NetworkReferenceValidator.Validate | src/model_validation.cpp:31-176 | No issue exactly if identifiers are set and distinct and every set field names a member of the kind it is for: pipes, pumps and valves end at junctions, reservoirs or tanks, and so on for materials, patterns, curves, attachments, controls, rules, labels and options. The index has an entry for each set field and no other. |
| IncrementalValidation.NeutralLink | src/model_persistence.cpp:1955-1998 | A set reference after a neutral edit was a set reference before it, with the same demand on its target. |
| IncrementalValidation.NeutralPipe | src/model_persistence.cpp:2000-2025 | A pipe edited neutrally still ends where demand points need it to. |
| IncrementalValidation.NeutralSound | src/model_persistence.cpp:2031-2057 | Reference-neutral edits leave a sound network sound, with the same index. |
| LocalValidation.CheckPoint | src/model_persistence.cpp:2167-2200 | A demand point's attachment is in order exactly against the final rows of its own network. |
| LocalValidation.TouchedOrderly | src/model_persistence.cpp:2303-2475 | A touched entity that passes the local check is in order in the final network. |
| LocalValidation.UntouchedOrderly | src/model_persistence.cpp:2466-2501 | An untouched entity is still in order, demand points on moved pipes included. |
| LocalValidation.LocalSound | src/model_persistence.cpp:2303-2520 | After the local checks a network that was sound is sound. |
| LocalValidation.IndexStep | src/model_persistence.cpp:2216-2301 | Replacing one source's index rows advances the index towards the recomputed one. |
| TouchedNetworks.HydraulicIndexes.CanSkip | src/model_persistence.cpp:2062-2106 | Says yes exactly for an edit that keeps everything the validator observes. |
| TouchedNetworks.HydraulicIndexes.AllSkip | src/model_persistence.cpp:2661-2691 | Takes the first fast path exactly if every touched entity is indexed and edited neutrally. |
| TouchedNetworks.HydraulicIndexes.LocalChecks | src/model_persistence.cpp:2303-2520 | Accepts exactly if every touched entity and every untouched demand point on a moved pipe is in order locally. |
| TouchedNetworks.HydraulicIndexes.UpdateSources | src/model_persistence.cpp:2216-2301 | The index rows of exactly the touched sources become the recomputed ones. |
| TouchedNetworks.HydraulicIndexes.ValidateFully | src/model_persistence.cpp:2700-2731 | The full pass accepts exactly networks that list each member once and whose fields keep the rules, and recomputes that network's index, an entry for each set field, only. |
| TouchedNetworks.HydraulicIndexes.CheckKept | src/model_persistence.cpp:2600-2658 | A changed root may let go of an entity exactly if its row is a tombstone or gone, decodable or not, or another changed root took it. |
| TouchedNetworks.HydraulicIndexes.ReplaceMemberships | src/model_persistence.cpp:2770-2801 | The members of the changed roots can be entered exactly if no entity is then in two networks; the table names each member's root and nothing else. |
| TouchedNetworks.HydraulicIndexes.ValidateTouched | src/model_persistence.cpp:2525-2803 | Whichever path is taken, a transaction, edits of network roots included, is accepted exactly if every changed root can be read or is gone, every live member that a changed root listed is still listed by one, and afterwards every network, touched or not, keeps the rules and shares no member; every index then has an entry for each set field, and the membership is that of the new roots. |
| NetworkRecords.BuildRecords | src/model_persistence.cpp:623-948 | Succeeds exactly if all identifiers are set and distinct and everything encodes; the root's record comes first, then every entity in list order. |
| NetworkRecords.RestoreList | src/model_persistence.cpp:950-978 | A list is restored exactly if its identifiers are set, not seen before, and name live rows of the list's kind that decode to themselves. |
| NetworkRecords.RestoreNeeds | src/model_persistence.cpp:1893-1930 | Only the rows a root refers to matter to what is loaded. |
| NetworkRecords.LoadHydraulicNetwork | src/model_persistence.cpp:1792-1930 | What is loaded from a working revision depends on the rows alone: an incomplete or stale membership index changes nothing. |
| SavedForm.NetworkAtIs | src/model_persistence.cpp:1792-1930 | A network is found exactly if its root is live and its own, within the length limit, and lists set identifiers once each, of live rows of the list's kind that hold an entity of that identifier; what is found is the root's metadata and those entities in order. |
| SealedNetworks.ReadRevisionObject | src/revision_root.cpp:244-258 | On a readable snapshot: the object's row, tombstone and version included, or nothing if it is not there. |
| SealedNetworks.ReadRevisionObjectsSelected | src/revision_root.cpp:316-363 | On a readable snapshot: exactly the requested rows, or nothing if one of them is missing. |
| SealedNetworks.LoadSealedNetwork | src/model_persistence.cpp:1742-1782 | A finalized revision loads, from the tree alone, exactly the network that its rows held when they were sealed. |
| NetworkSave.StoredReadsBack | src/model_persistence.cpp:1722-1949 | Rows that hold the records of a network load as that network, list order kept, exactly if the reader accepts the length of its root, of its metadata's lists, of every entity and of every entity's lists. |
| NetworkSave.OthersStay | src/model_persistence.cpp:1545-1637 | A save that fits the ownership rules changes neither the root nor the members of any other network. |
| NetworkSave.StillRegistered | src/model_persistence.cpp:1640-1660 | The membership table still lists exactly the members of every readable root. |
| NetworkSave.CompatibleIs | src/model_persistence.cpp:1545-1612 | A save fits exactly if no identifier belongs to another network, stored rows have the kind to be written and were listed by the network's own root, and what is dropped is live. |
| NetworkSave.StoredIs | src/model_persistence.cpp:1590-1637 | The rows after a save: the root and every entity as encoded, with a new version only if the content is new, a tombstone in its next version for each object dropped, every other row as before. |
| RetiredMembers.DroppedRetires | src/model_persistence.cpp:1600-1609 | A save that leaves a member out makes it a tombstone that no readable root lists. |
| RetiredMembers.DroppedStaysOut | src/model_persistence.cpp:1545-1637 | In any run of saves, of this network or of others, what one save dropped is listed by none of the later ones: until it is revived by other means, a save that lists it is refused. |
| NetworkSave.NetworkStore.FetchForSave | src/model_persistence.cpp:186-237 | The rows under all old and new identifiers, and all identifiers whose owner the membership table does not prove. |
| NetworkSave.NetworkStore.PlanEdits | src/model_persistence.cpp:1600-1636 | Edits for exactly the changed records and the dropped members; refused exactly if an identifier is taken or a dropped member is gone. |
| NetworkSave.NetworkStore.InsertFreshObjects | src/model_persistence.cpp:250-390 | The first-time path leaves the same rows, versions and journal as single writes in order. |
| NetworkSave.NetworkStore.InsertFreshMembership | src/model_persistence.cpp:396-431 | Membership filled from the new events is the new member set. |
| NetworkSave.NetworkStore.WriteObjects | src/model_persistence.cpp:1545-1637 | Either way all the writes succeed exactly if the save is compatible with rows and owners; afterwards the records stand, dropped members are tombstones, and nothing else is touched. |
| NetworkSave.NetworkStore.SaveHydraulicNetwork | src/model_persistence.cpp:1448-1709 | Succeeds exactly for a valid, encodable network at the expected generation of a head without a legacy snapshot, whose stored root is its own and which fits rows and owners; rows and owners are then those of the network, entity by entity, it loads as saved exactly if the reader accepts its lengths, every other network loads as before; otherwise nothing changes. |
| NetworkSave.NetworkStore.RebuildWorkingHydraulicIndexes | src/model_persistence.cpp:1075-1230 | Both derived tables can be rebuilt exactly if every root loads and no two share a member. |
| NetworkLimits.SaveRebuildable | src/model_persistence.cpp:1075-1230 | Where the tables can be rebuilt, they still can after a save exactly if the reader accepts the saved network: one overlong save keeps the sealed revision from being branched. |
| NetworkLimits.UnreadableBlocks | src/model_persistence.cpp:1520-1545 | In every run of saves that starts by writing a root the reader refuses, no later save of that network goes through, and the tables of the head cannot be rebuilt. |
| NetworkLimits.SavedButUnreadable | src/model_codec.cpp:200-265 | Two concrete networks, a list of 1,000,001 elements and a root over 256 MiB: both are built and saved on an empty head, their kinds are legal, and neither loads nor lets the tables be rebuilt. |
| PortableFrame.FlatInjective | src/revision_manifest.cpp:24-55 | Frames of one layout are equal only if all their items are. |
| PortableFrame.ReadField | src/revision_manifest.cpp:66-77 | Reads a length-prefixed field exactly if it is there and within the limit; never past the end. |
| RevisionManifest.CheckValid | src/revision_manifest.cpp:79-132 | Accepts exactly manifests with set identifiers, positive number, times not negative, digests of 32 octets, texts of at most 8 MiB that survive UTF-8, at most 64 distinct parents other than the revision, and a chain hash that is the hash of the preimage. |
| ByteLayouts.ChainLayout | src/revision_manifest.cpp:135-167 | What the chain hash is taken over, octet for octet: magic text, five identifiers, three numbers, title and message with lengths, snapshot and history hash, the root or 32 zeros, the number of parents, and each parent's identifier and chain hash. |
| RevisionManifest.ChainHash | src/revision_manifest.cpp:135-167 | The hash of the chain preimage, or nothing if a digest has the wrong length. |
| RevisionManifest.EncodeRevisionManifest | src/revision_manifest.cpp:169-202 | The canonical frame, exactly for valid manifests whose frame is within the limit. |
| ByteLayouts.FrameLayout | src/revision_manifest.cpp:169-202 | The manifest frame, octet for octet: as the chain preimage under its own magic text, with a mode flag in front and the chain hash before the parents. |
| RevisionManifest.DecodeRevisionManifest | src/revision_manifest.cpp:204-284 | Accepts exactly the frames that encoding produces and gives back the manifest: both round trips. |
| RevisionManifest.FrameInjective | src/revision_manifest.cpp:169-202 | Different valid manifests have different frames. |
| RevisionManifest.ChainBinds | src/revision_manifest.cpp:135-167 | The chain preimage determines every field, except that an all-zero object root is not told from the absence of one. |
| RevisionManifest.ModeNotBound | src/revision_manifest.cpp:119-126 | A valid manifest with an all-zero object root is valid in both modes under one chain hash. |
| OperationJournal.JournalBytes | src/history.cpp:239-263 | The journal frame of the rows, snapshot flags and lengths included. |
| ByteLayouts.JournalLayout | src/history.cpp:239-263 | The journal frame, octet for octet: magic text, number of operations, and each operation's identifiers, numbers, kind, target and flagged snapshots. |
| OperationJournal.VerifyRevisionOperationJournal | src/revision_manifest.cpp:288-388 | Accepts exactly the frames within 256 MiB, under the expected hash, of histories numbered from one without gaps, with set and distinct identifiers and actors, in which replacements have no target and undos and redos have one. |
| OperationJournal.RowLength | src/revision_manifest.cpp:309-310 | No event is shorter than the bound on the count assumes, so the early count check never rejects a genuine journal. |
| OperationJournal.JournalDetermines | src/history.cpp:239-263 | The journal's bytes determine the whole history, both snapshots of every event included. |
| SnapshotHistory.Replay | src/history.cpp:109-147 | The loop yields the undo and redo stacks, or none for a broken order. |
| SnapshotHistory.ReplaceSound | src/database.cpp:708-745 | A replacement keeps the history sound, goes on top of the applied ones and leaves nothing to redo. |
| SnapshotHistory.MoveSound | src/history.cpp:349-475 | Undo and redo keep the history sound and only move along its line. |
| SnapshotHistory.MovesLand | src/history.cpp:349-475 | After any run of undos and redos the snapshot is that of the place they lead to. |
| SnapshotHistory.EvenMovesRestore | src/history.cpp:349-475 | As many redos as undos, in any order, restore the snapshot and both stacks. |
| SnapshotHistory.SnapshotHead.ApplySnapshotOperation | src/history.cpp:154-237 | Snapshot, generation and event change together, and only if the snapshot changes. |
| SnapshotHistory.SnapshotHead.ReplaceWorkingSnapshot | src/database.cpp:708-745 | Succeeds exactly at the expected generation of an editable whole-snapshot revision, with another snapshot; then that snapshot stands and one replacement from the old to the new one is recorded. |
| SnapshotHistory.SnapshotHead.UndoLastChange | src/history.cpp:349-409 | At the right generation undo fails only with nothing to undo: the conflict branch is never taken. It takes back one recorded replacement that led to the present snapshot, and records that. |
| SnapshotHistory.SnapshotHead.RedoLastChange | src/history.cpp:411-475 | The same for redo. |
| SnapshotHistory.SnapshotHead.ExportOperationJournal | src/history.cpp:274-291 | The journal of any run of edits can be exported exactly if the revision is finalized, its manifest can be encoded, the recorded hash is the journal's, and the journal is within the size limit. |
| SnapshotHistory.LongJournal | src/history.cpp:154-237 | One replacement by a snapshot of 256 MiB is a sound history whose journal is too long to export. |
| SnapshotHistory.LongTitle | src/revision_manifest.cpp:79-132 | A title longer than 8 MiB in UTF-8 keeps the manifest, and with it even an empty journal, from being exported. |
| LoginThrottle.PurgeExpired | src/login_throttle.cpp:9-16 | On rising times, drops exactly the expired attempts. |
| LoginThrottle.UnexpiredIsWindow | src/login_throttle.cpp:9-16 | What counts against an attempt is exactly what the window ending with it holds. |
| LoginThrottle.WindowBound | src/login_throttle.cpp:29-54 | If each attempt waits for a window after the one max places before it, no half-open window holds more than max. |
| LoginThrottle.RunBounded | src/login_throttle.cpp:29-54 | For a whole run, every window holds at most the global limit and at most the username limit of each bucket. |
| LoginThrottle.BucketsAddUp | src/login_throttle.cpp:33-43 | The unexpired attempts of all buckets add up to the unexpired attempts overall. |
| LoginThrottle.Throttle.PurgeBuckets | src/login_throttle.cpp:33-43 | Expired attempts leave every bucket, and empty buckets disappear. |
| LoginThrottle.Throttle.AllowAttempt | src/login_throttle.cpp:29-54 | An attempt is accepted exactly if fewer than 20 attempts were accepted in the last minute, fewer than 8 of them for its name; only accepted ones are recorded. |
| LoginThrottle.Throttle.SizesAgree | src/login_throttle.cpp:29-54 | The bucket sizes always sum to the global size. |
| LoginThrottle.Throttle.LimitsHold | src/login_throttle.cpp:29-54 | After any calls no minute of the run, wherever it starts, holds more than 20 attempts, or more than 8 for one name. |

## Left out

- TreeApply.Apply: on a non-empty tree it promises nothing for batches whose old and new map have parts that collide while the new tree does not, because the code keeps the first of two colliding payloads unseen; some such batches come out right.
- RevisionSeal.BuildRevisionRoot: the same condition for sealing on a parent's tree, since that path uses the batch rewrite.
- RepositoryMerge.MergeObjectRevisions: that a blocked seal always refuses is not stated, see TreeApply.Apply; the null checks on its identifiers are not modelled, and its checks of the object mode always pass (RepositoryModel.HoldsObjects).
- RepositoryModel.Repository.Finalize: titles, messages, times and actors are one opaque text; heads with a whole snapshot in place of objects are those of SnapshotHistory and are not in this repository; on a parent root a collision may refuse but need not.
- RepositoryModel.Repository.VerifyProject: what the manifest, history and chain functions hash is a parameter of the repository; which revision failed, and how many were checked, is not part of the result.
- RepositoryModel.Repository.CreateBranch: texts are sequences of characters, and trimming is a parameter; project names are checked but not kept.
- RevisionSeal.ReadRevisionObjects: versions beyond 63 bits and contents beyond 64-bit lengths cannot occur in the tables and are excluded by the table constraints.
- TouchedNetworks.HydraulicIndexes.ValidateTouched: an object that does not decode counts as absent except where only liveness matters; a touched root is deleted, unreadable (a root that lists an object under a wrong kind included), or readable.
- NetworkValidator.NetworkReferenceValidator.Validate: the entity lists are one list of typed members; MSX options, tank volume and generic curves are not modelled; the position on a pipe is an "in range" flag.
- NetworkSave.NetworkStore.SaveHydraulicNetwork: the 18 entity lists are a sequence of lists with one kind each; the finalized flag is not a field of the store; the edits of the general path are collected first and then written in that order.
- NetworkRecords.LoadHydraulicNetwork: permissions and the choice of query plan are not modelled; loading from a finalized revision is SealedNetworks.LoadSealedNetwork.
- FieldMerge.MergeModelFields: an entity is a list of named fields of one schema per kind, without the identity field, which both sides share; a decoded entity is assumed to encode back to what was decoded.
- MergePreview.Preview: statistics of the scan and the digest of the physical rows are not part of the result.
- LoginThrottle.Throttle.AllowAttempt: assumes that the clock does not go back, and takes the folded username as an opaque bucket key.
- HashChain.ChainFixesHistory: the root of a revision is bound only where both records are in object mode, because the chain hash does not bind the mode (RevisionManifest.ModeNotBound).
- SnapshotHistory.SnapshotHead.UndoLastChange: assumes an authorised actor with a set UUID, fresh event identifiers, and a generation below the 63-bit limit.
- RevisionManifest.DecodeRevisionManifest: text conversion is a pair of arbitrary functions; the code checks every round trip itself, and so does the model.
- TreeDiff.Diff: the visitor is a function of the differences seen so far; counters of loaded and skipped nodes are not modelled.
- SQL text, drivers, batch sizes, differences between PostgreSQL and SQLite, locks: tables are maps, a transaction is one step.
- SHA-256, password hashing, tokens, UUID generation, clocks: parameters or opaque values; event and group identifiers of the object journal are positions.
- The content inventory, exports of parent manifests, and the materialisation of branch rows in bulk.
- The refusal of a shape that bulk build can never produce, and the digest comparison of a merge target's physical rows under the write lock, which is always equal when the store is written through its own interface.
- Permissions, sessions, recovery, audit, HTTP routes, configuration, command line and benchmarks.
- Per-entity encoders and decoders: parameters; a network codec is assumed to read back what it wrote up to the reader's limits on length, and NetworkLimits gives one codec of this kind.
