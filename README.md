# Experience store of the ShashChess engine, modelled in Dafny

This project models the persisted-learning ("experience") store of the
ShashChess engine, `LearningData` in
`DroidFishApp/src/main/cpp/shashchess/learn.cpp`. The store keeps a
multi-valued index from a position key to the learning moves known for
that position (move, depth, score). The first entry under a key is the
move the engine reads back as the best one. The store can:

- merge a record into the index (`insert_or_update`);
- load a whole experience file (`load`);
- record a result from the running search (`add_new_learning`);
- answer `probe` and `probe_move`;
- write the index out with a write-then-rename protocol (`persist`);
- consolidate the canonical file, the leftover of an interrupted persist
  and numbered slave files at start-up (`init`);
- be cleared, paused and resumed.

The model is layered in the same way as the code:

- `LearnTypes` (types.dfy) holds the values: keys, learning moves,
  records, the "Persisted learning" setting and a stored file. A stored
  file is its whole records plus the count of trailing bytes that do not
  form a record. It also holds the size check of `load` and the
  record-by-record loop of `load`.
- `MergePolicy` (merge.dfy) is the merge rule of `insert_or_update` as a
  function on one key's entry list: the update rule, the promotion rule
  of the Standard and Self modes, and the slot exchange. It carries the
  properties of one merge.
- `ExperienceIndex` (index.dfy) is the whole index as a value: a map from
  key to entries plus the order in which a traversal visits the keys. It
  defines merging one or many records, `probe`, `probe_move`, and the
  records a traversal writes. It proves the invariants of the index and
  the persist-then-reload round trip.
- `ExperienceFiles` (files.dfy) covers the file names of every mode and
  their injectivity, the effect of `persist` on the data directory, and
  which records and files start-up consolidation consumes.
- `Learn` (learning_data.dfy) is the imperative object. `LearningData` is
  a class whose fields are the index, the dirty flag, the pause flag and
  the two buffer-ownership lists (as counts). `Disk` is a class holding
  the data directory, a map from file name to contents, with the `write`,
  `remove` and `rename` calls. Every method is proved against the
  functions of the modules above.

The value of the "Persisted learning" option is a parameter of the
methods that read it:

- Self selects the Self ("q-learning") promotion rule;
- Off and Standard both merge under the Standard rule, as the code does.

## Model

| member | source | states |
|---|---|---|
| LearnTypes.LoadableIffWholeRecords | DroidFishApp/src/main/cpp/shashchess/learn.cpp:25-30 | a file passes the size check exactly when its size is a whole number of records (no trailing partial record) |
| LearnTypes.DoWhileRounds | DroidFishApp/src/main/cpp/shashchess/learn.cpp:60-64 | the `do … while` loop of `load` runs its body at least once, then once more per remaining whole record |
| LearnTypes.DoWhileRoundsOfWholeRecords | DroidFishApp/src/main/cpp/shashchess/learn.cpp:57-64 | on a non-empty file that passes the size check, the loop visits exactly the file's records |
| LearnTypes.EmptyFileOverread | DroidFishApp/src/main/cpp/shashchess/learn.cpp:25-30 | an empty file passes the size check, yet the loop hands one record to the merge (see Findings) |
| MergePolicy.IndexOfMove | DroidFishApp/src/main/cpp/shashchess/learn.cpp:89-92 | the `find_if` scan returns the first position holding the move, or the length when no entry holds it |
| MergePolicy.Swap | DroidFishApp/src/main/cpp/shashchess/learn.cpp:147-151 | the exchange of two slots swaps their contents and leaves every other slot alone |
| MergePolicy.SwapPermutes | DroidFishApp/src/main/cpp/shashchess/learn.cpp:147-151 | the exchange keeps the same multiset of entries |
| MergePolicy.Merge | DroidFishApp/src/main/cpp/shashchess/learn.cpp:69-154 | the merge of one record into a key's entries; its own contract states only that the key ends non-empty, and its behaviour is stated by MergeAddsUnknownMove, MergeKnownMove and MergePromotion |
| MergePolicy.DistinctMovesCount | DroidFishApp/src/main/cpp/shashchess/learn.cpp:346 | with distinct moves, the entry count that `probe` returns is the number of distinct moves known for the key |
| MergePolicy.MergeAddsUnknownMove | DroidFishApp/src/main/cpp/shashchess/learn.cpp:74-103 | a move not yet stored is added: the entries gain exactly that move (as a multiset), the move set grows by it, the change flag is set, and a new key gets it as its only entry |
| MergePolicy.MergeKnownMove | DroidFishApp/src/main/cpp/shashchess/learn.cpp:104-118 | a stored move is overwritten exactly when the incoming one is deeper, or as deep with a strictly higher score; otherwise entries and flag are unchanged; the count and the move set never change |
| MergePolicy.MergePromotion | DroidFishApp/src/main/cpp/shashchess/learn.cpp:120-153 | a candidate that is not the first slot moves to the first slot exactly when the mode's rule promotes it, and the displaced first entry takes its slot while every other entry keeps its own; without promotion the entries are the appended or overwritten list; a first-slot candidate stays in place |
| MergePolicy.MergeKeepsMovesDistinct | DroidFishApp/src/main/cpp/shashchess/learn.cpp:88-153 | a merge never stores the same move twice under one key |
| MergePolicy.MergeKeepsStandardBestFirst | DroidFishApp/src/main/cpp/shashchess/learn.cpp:134-152 | under Standard, a first slot that was a (depth, score) maximum stays one after the merge |
| MergePolicy.SelfModeFirstSlotCanLoseScoreLead | DroidFishApp/src/main/cpp/shashchess/learn.cpp:104-133 | under Self, an in-place overwrite of the first slot can leave it with a lower score than another entry: Self keeps no score maximum in the first slot |
| MergePolicy.StandardDepthDominates | DroidFishApp/src/main/cpp/shashchess/learn.cpp:134-140 | Standard: a deeper result for another move takes the first slot despite a much lower score |
| MergePolicy.StandardTieGoesToNewcomer | DroidFishApp/src/main/cpp/shashchess/learn.cpp:136 | Standard: on equal depth and score the newcomer takes the first slot |
| MergePolicy.SelfScoreDominates | DroidFishApp/src/main/cpp/shashchess/learn.cpp:127-133 | Self: a higher score keeps the first slot against a far deeper result |
| ExperienceIndex.Probe | DroidFishApp/src/main/cpp/shashchess/learn.cpp:335-347 | an unknown key gives 0 and no move; a known key gives its number of distinct moves and its first entry |
| ExperienceIndex.ProbeMove | DroidFishApp/src/main/cpp/shashchess/learn.cpp:349-365 | the result is a stored entry for that key and move, and it is absent exactly when the key is unknown or has no entry for the move |
| ExperienceIndex.InsertUnknownKey | DroidFishApp/src/main/cpp/shashchess/learn.cpp:74-86 | a record for a new key gives that key exactly the incoming move, sets the flag, appends the key to the traversal and leaves every other key alone |
| ExperienceIndex.InsertTouchesOnlyItsKey | DroidFishApp/src/main/cpp/shashchess/learn.cpp:72 | a merge changes no other key's entries |
| ExperienceIndex.InsertKeepsValid | DroidFishApp/src/main/cpp/shashchess/learn.cpp:69-154 | a merge keeps the index well formed: keys listed once each and exactly the known ones, every key non-empty with distinct moves |
| ExperienceIndex.InsertRecordsKeepValid | DroidFishApp/src/main/cpp/shashchess/learn.cpp:57-64 | any sequence of merges keeps the index well formed |
| ExperienceIndex.InsertRecordsKeepStandardBest | DroidFishApp/src/main/cpp/shashchess/learn.cpp:57-64 | under Standard, any sequence of merges keeps every key's first entry a (depth, score) maximum |
| ExperienceIndex.InsertRecordsAppend | DroidFishApp/src/main/cpp/shashchess/learn.cpp:185-208 | feeding two record lists one after the other is feeding their concatenation |
| ExperienceIndex.AllRecordsCount | DroidFishApp/src/main/cpp/shashchess/learn.cpp:284-289 | the records `persist` writes hold every index entry exactly once under its key, and nothing else |
| ExperienceIndex.MergeAllReloads | DroidFishApp/src/main/cpp/shashchess/learn.cpp:57-64 | merging a key's distinct entries one by one into an unknown key rebuilds the same entries up to order, under Standard with a maximum first |
| ExperienceIndex.StandardReloadKeepsBestRank | DroidFishApp/src/main/cpp/shashchess/learn.cpp:134-140 | under Standard, the rebuilt first entry has the same depth and score as the original first entry |
| ExperienceIndex.ReloadAll | DroidFishApp/src/main/cpp/shashchess/learn.cpp:284-289 | merging the written records into an empty index gives each key, in the same traversal order, its entries merged one by one |
| ExperienceIndex.PersistReloadRoundTrip | DroidFishApp/src/main/cpp/shashchess/learn.cpp:282-293 | persisting then reloading gives a well-formed index with the same keys in the same order, the same entries per key up to order, and the same `probe` count for every key |
| ExperienceIndex.ReloadSingleEntriesIdentical | DroidFishApp/src/main/cpp/shashchess/learn.cpp:282-293 | when every key has one entry, the reloaded index is identical |
| ExperienceIndex.ReloadKeepsStandardBestRank | DroidFishApp/src/main/cpp/shashchess/learn.cpp:282-293 | under Standard with maximum first entries, every reloaded first entry ties the original in depth and score |
| ExperienceIndex.SelfReloadCanChangeFirstMove | DroidFishApp/src/main/cpp/shashchess/learn.cpp:124-131 | under Self, a persist followed by a reload can change the move `probe` reports: an index whose first entry (move 1, score 10) precedes move 2 with score 90 reloads with move 2 first |
| ExperienceFiles.NatToString | DroidFishApp/src/main/cpp/shashchess/learn.cpp:201 | the slave number in a file name is a non-empty string of decimal digits, a single digit exactly below 10, with a leading zero only for 0 |
| ExperienceFiles.NatToStringRoundTrip | DroidFishApp/src/main/cpp/shashchess/learn.cpp:201 | reading the decimal digits back gives the slave number |
| ExperienceFiles.NatToStringInjective | DroidFishApp/src/main/cpp/shashchess/learn.cpp:201 | different slave numbers render as different decimal strings |
| ExperienceFiles.PathInjective | DroidFishApp/src/main/cpp/shashchess/learn.cpp:187-201 | distinct experience files (store, temporary, slave; with or without suffix) have distinct names, and equal names mean the same file |
| ExperienceFiles.PersistWritesCanonical | DroidFishApp/src/main/cpp/shashchess/learn.cpp:282-296 | a persist that writes leaves a loadable store of the current mode holding exactly the traversal's records, no temporary file, and a clean flag |
| ExperienceFiles.PersistTouchesOnlyItsNames | DroidFishApp/src/main/cpp/shashchess/learn.cpp:282-293 | a persist changes no file other than the store and the temporary file of its mode |
| ExperienceFiles.PersistIdempotent | DroidFishApp/src/main/cpp/shashchess/learn.cpp:241-242 | a second persist with no merge in between changes no file |
| ExperienceFiles.FeedSlavesInOrder | DroidFishApp/src/main/cpp/shashchess/learn.cpp:198-208 | loading slave files one by one merges their records in number order |
| ExperienceFiles.InitLeavesOnDisk | DroidFishApp/src/main/cpp/shashchess/learn.cpp:210-216 | after `init` every consumed file is gone; after a persist the store of the mode holds the consolidated records; otherwise the canonical store is untouched |
| ExperienceFiles.SlavesFitOnDisk | DroidFishApp/src/main/cpp/shashchess/learn.cpp:199-208 | `n` loadable slave files need `n` distinct files on disk, so the slave loop ends |
| Learn.Disk.Write | DroidFishApp/src/main/cpp/shashchess/learn.cpp:282-290 | truncate-create replaces the file's contents and changes no other file |
| Learn.Disk.Remove | DroidFishApp/src/main/cpp/shashchess/learn.cpp:292 | `remove` deletes that file only |
| Learn.Disk.RemoveAll | DroidFishApp/src/main/cpp/shashchess/learn.cpp:215-216 | deleting each listed file in turn removes exactly the listed files |
| Learn.Disk.Rename | DroidFishApp/src/main/cpp/shashchess/learn.cpp:293 | `rename` moves the contents to the new name and drops the old name; a missing source changes nothing |
| Learn.FindMove | DroidFishApp/src/main/cpp/shashchess/learn.cpp:89-92 | the scan loop returns the first position holding the move (`IndexOfMove`) |
| Learn.LearningData.constructor | DroidFishApp/src/main/cpp/shashchess/learn.cpp:156 | a new store is empty, not paused, clean and owns no buffers |
| Learn.LearningData.InsertOrUpdate | DroidFishApp/src/main/cpp/shashchess/learn.cpp:69-154 | the new index is the merge of the record into the old index; the dirty flag is set exactly when the merge changed something, and is never cleared |
| Learn.LearningData.Load | DroidFishApp/src/main/cpp/shashchess/learn.cpp:13-67 | `load` succeeds exactly when the file exists, passes the size check and allocation and reading succeed; on success it owns one more buffer and merges the file's records in order, otherwise the index is unchanged |
| Learn.LearningData.MergeRecords | DroidFishApp/src/main/cpp/shashchess/learn.cpp:57-64 | the record loop merges each record of the buffer in file order |
| Learn.LearningData.Clear | DroidFishApp/src/main/cpp/shashchess/learn.cpp:163-181 | the index is emptied and both buffer lists are released; the dirty and pause flags are left alone |
| Learn.LearningData.Persist | DroidFishApp/src/main/cpp/shashchess/learn.cpp:238-297 | with an empty or clean index nothing happens; otherwise the traversal's records replace the store of the mode via the temporary file, and the flag is cleared |
| Learn.LearningData.CollectRecords | DroidFishApp/src/main/cpp/shashchess/learn.cpp:284-289 | the loop over the index emits one record per entry, key by key in traversal order |
| Learn.LearningData.Init | DroidFishApp/src/main/cpp/shashchess/learn.cpp:183-220 | the index becomes the merge, into an empty index, of the canonical file, the leftover, then slaves 0..n-1 (n = first slave that does not load); the disk is the persisted-then-cleaned state; the flag ends clear; it owns one file buffer per loaded file (the canonical file if it loaded, the leftover if it loaded, each loaded slave) and no new-move buffer |
| Learn.LearningData.LoadStartupFiles | DroidFishApp/src/main/cpp/shashchess/learn.cpp:185-208 | the loads of `init`: their records are merged in that order, and the leftover (if it loaded) and the loaded slaves are the files to delete; one file buffer is owned per loaded file and no new-move buffer |
| Learn.LearningData.LoadMainFiles | DroidFishApp/src/main/cpp/shashchess/learn.cpp:185-195 | emptying the store, then loading the canonical file and the leftover, merges their records in that order; the leftover is reported when it loaded; the store owns one file buffer per loaded file and no new-move buffer |
| Learn.LearningData.LoadSlaveFiles | DroidFishApp/src/main/cpp/shashchess/learn.cpp:197-208 | the slave loop loads `experience0.bin`, `experience1.bin`, … up to the first one that does not load, merging their records in number order, and returns their names; one more file buffer is owned per loaded slave |
| Learn.LearningData.LoadSlave | DroidFishApp/src/main/cpp/shashchess/learn.cpp:199-205 | one round of the slave loop: it loads exactly when slave `i` is loadable, then its records are merged after slaves 0..i-1 and one more file buffer is owned; otherwise nothing changes |
| Learn.LearningData.Pause | DroidFishApp/src/main/cpp/shashchess/learn.cpp:299-302 | the store is paused (`IsPaused` holds); nothing else changes |
| Learn.LearningData.Resume | DroidFishApp/src/main/cpp/shashchess/learn.cpp:304-307 | the store is not paused (`IsPaused` fails); nothing else changes |
| Learn.LearningData.IsPaused | DroidFishApp/src/main/cpp/shashchess/learn.cpp:309-312 | reports the pause flag, which only `pause` sets and only `resume` clears |
| Learn.LearningData.Probe | DroidFishApp/src/main/cpp/shashchess/learn.cpp:335-347 | on the store's fields: an unknown key gives 0 and no move; a known key gives its number of entries, which is its number of distinct moves, and its first entry |
| Learn.LearningData.AddNewLearning | DroidFishApp/src/main/cpp/shashchess/learn.cpp:314-333 | when the one-record allocation succeeds, the store owns one more new-move buffer and the record is merged under the configured mode; otherwise nothing changes |
| Learn.LearningData.ProbeMove | DroidFishApp/src/main/cpp/shashchess/learn.cpp:349-365 | the scan returns the stored entry for the key and move, as `probe_move` specifies |

## Left out

- The byte layout of a record (learn.h is not part of this model). A file is its list of whole records plus the length of a trailing partial record. The record width is an assumed positive constant (24 in the model) and the proofs use only that it is positive.
- The order of the hash table (its type is declared in learn.h, which is not part of this model). The model fixes one convention: a key joins the traversal at its first insertion, and a new entry is appended after the key's existing entries. The code itself only relies on the first entry being the best.
- Pointer identity. Entries are values. The test `bestNewMoveCandidate != currentBestMove` is modelled as "the candidate is not in the first slot". The three-step swap through a static temporary is modelled as an exchange of the two slots.
- Memory ownership. The two buffer lists are counts of owned buffers. `free` is not modelled.
- `malloc` failure and short reads. For `load` and `add_new_learning` they are boolean parameters. `init` takes every allocation and read to succeed.
- Learn.LearningData.Load: the model merges no record for an empty file. The code's `do … while` loop merges one record read past the buffer (see Findings).
- The process-unique suffix of concurrent mode. It comes from a time-seeded random generator and is a string parameter. The hexadecimal rendering uses `std::hex` without a fixed width, so the model does not assume a fixed width. Path injectivity is proved for every suffix.
- `Utility::map_path`: taken as the identity. `init` loads the leftover by its unmapped name and records the mapped one. Under the identity these are the same file.
- `setUsePersistedLearning` and the `Options` table. The setting and the "Concurrent Experience" flag are method parameters.
- Console diagnostics on `std::cerr`. I/O errors of `write`, `remove` and `rename` are not modelled either: each call is taken to succeed.
- Files whose names are not experience-file names are not represented on the modelled disk.
- Concurrency between engine processes that share the data directory.
- The destructor. It only calls `clear`.
- EcoBook.java and evaluate.h do not use the store and are not part of this model.
- Learn.LearningData.Init: `init` calls `persist`, whose empty and dirty checks still apply, so the consolidated index is written only when the store is non-empty and dirty.
- Learn.LearningData.Init: the code loads `experience.bin` even in concurrent mode, where `persist` then writes `experience-<suffix>.bin`. The model follows the code.

## Findings

| source | as written | input that shows it | evidently intended | confidence | as-written member | corrected member |
|---|---|---|---|---|---|---|
| DroidFishApp/src/main/cpp/shashchess/learn.cpp:25-64 | the size check accepts a 0-byte file, and the `do … while` loop runs its body before testing the bound, so it merges one record read past the end of an empty buffer (when `malloc(0)` returns a non-null pointer) | an existing, empty `experience.bin` | an empty file merges no record | not executed; depends on what `malloc(0)` returns | LearnTypes.EmptyFileOverread | Learn.LearningData.MergeRecords |
