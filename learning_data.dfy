/** `LearningData`, the experience store object: the index, the dirty flag,
    the pause flag and the buffer ownership lists, with the operations that
    update them in place. */
module Learn {
  import opened LearnTypes
  import opened MergePolicy
  import opened ExperienceIndex
  import opened ExperienceFiles

  /** The data directory, as a map from file name to contents. Its methods
      are the three file-system calls `persist` and `init` make. */
  class Disk {
    var files: FileMap

    constructor (files: FileMap)
      ensures this.files == files
    {
      this.files := files;
    }

    /** Truncate-create `name` and write `f` into it. */
    method Write(name: FileName, f: StoredFile)
      modifies this
      ensures files == old(files)[name := f]
    {
      files := files[name := f];
    }

    /** `remove`: delete `name` if it exists. */
    method Remove(name: FileName)
      modifies this
      ensures files == old(files) - {name}
    {
      files := files - {name};
    }

    /** `remove` each of `names` in turn. */
    method RemoveAll(names: seq<FileName>)
      modifies this
      ensures files == old(files) - NameSet(names)
    {
      for n := 0 to |names|
        invariant files == old(files) - NameSet(names[..n])
      {
        assert NameSet(names[..n + 1]) == NameSet(names[..n]) + {names[n]};
        files := files - {names[n]};
      }
      assert names[..|names|] == names;
    }

    /** `rename`: move `from` to `to`, replacing `to`; a missing `from`
        changes nothing. */
    method Rename(from: FileName, to: FileName)
      modifies this
      ensures files == if from in old(files) then (old(files) - {from})[to := old(files)[from]] else old(files)
    {
      if from in files {
        files := (files - {from})[to := files[from]];
      }
    }
  }

  /** The `find_if` over one key's entries. */
  method FindMove(entries: seq<LearningMove>, move: int) returns (i: nat)
    ensures i == IndexOfMove(entries, move)
  {
    i := 0;
    while i < |entries| && entries[i].move != move
      invariant i <= |entries|
      invariant forall j :: 0 <= j < i ==> entries[j].move != move
    {
      i := i + 1;
    }
  }

  class LearningData {
    /** `HT`: each key's entries, first = best. */
    var ht: map<Key, seq<LearningMove>>
    /** The order in which a traversal of `HT` visits the keys. */
    var keys: seq<Key>
    var needPersisting: bool
    var isPaused: bool
    /** How many whole-file buffers `load` has taken ownership of. */
    var mainDataBuffers: nat
    /** How many single-record buffers `add_new_learning` has allocated. */
    var newMovesDataBuffers: nat

    function Snapshot(): Index
      reads this
    {
      Index(ht, keys)
    }

    ghost predicate Valid()
      reads this
    {
      ExperienceIndex.Valid(Snapshot())
    }

    /** The store holds the index of `st`, and the dirty flag is set when it
        was set before (`dirty0`) or `st` changed something. */
    ghost predicate Reflects(st: Step, dirty0: bool)
      reads this
    {
      Snapshot() == st.index && needPersisting == (dirty0 || st.changed)
    }

    constructor ()
      ensures Valid() && Snapshot() == Empty
      ensures !isPaused && !needPersisting
      ensures mainDataBuffers == 0 && newMovesDataBuffers == 0
    {
      ht, keys := map[], [];
      isPaused, needPersisting := false, false;
      mainDataBuffers, newMovesDataBuffers := 0, 0;
    }

    /** Merge one record into the index. */
    method InsertOrUpdate(plm: Record, qLearning: bool)
      modifies this`ht, this`keys, this`needPersisting
      ensures var st := InsertRecord(old(Snapshot()), plm, qLearning);
        && Snapshot() == st.index
        && needPersisting == (old(needPersisting) || st.changed)
    {
      if plm.key !in ht {
        assert Merge([], plm.lm, qLearning) == Merged([plm.lm], true);
        ht := ht[plm.key := [plm.lm]];
        keys := keys + [plm.key];
        needPersisting := true;
        return;
      }
      var range := ht[plm.key];
      var itr := FindMove(range, plm.lm.move);
      var entries := range;
      var bestNewMoveCandidate: Option<nat> := None;
      if itr == |range| {
        entries := range + [plm.lm];
        bestNewMoveCandidate := Some(itr);
        needPersisting := true;
      } else {
        var existingMove := range[itr];
        if Improves(existingMove, plm.lm) {
          entries := range[itr := plm.lm];
          bestNewMoveCandidate := Some(itr);
          needPersisting := true;
        }
      }
      if bestNewMoveCandidate.Some? {
        var c := bestNewMoveCandidate.value;
        var currentBestMove := entries[0];
        var newBestMove := false;
        if c != 0 {
          newBestMove := Promotes(qLearning, entries[c], currentBestMove);
        }
        if newBestMove {
          var lm := entries[c];
          entries := entries[c := currentBestMove][0 := lm];
        }
      }
      assert entries == Merge(range, plm.lm, qLearning).entries;
      ht := ht[plm.key := entries];
    }

    /** Load one experience file: reject a missing file, a size that is not a
        multiple of the record width, a failed allocation or a failed read,
        leaving the index alone; otherwise take ownership of the buffer and
        merge every record in file order under the configured mode. */
    method Load(disk: Disk, filename: FileName, usage: PersistedLearningUsage, allocOk: bool, readOk: bool)
      returns (ok: bool)
      requires Valid()
      modifies this`ht, this`keys, this`needPersisting, this`mainDataBuffers
      ensures Valid()
      ensures ok == (LoadableAt(disk.files, filename) && allocOk && readOk)
      ensures allocOk && readOk ==>
        var st := InsertRecords(old(Snapshot()), RecordsAt(disk.files, filename), QLearning(usage));
        && Snapshot() == st.index
        && needPersisting == (old(needPersisting) || st.changed)
      ensures !(allocOk && readOk) ==> Snapshot() == old(Snapshot()) && needPersisting == old(needPersisting)
      ensures mainDataBuffers == old(mainDataBuffers) + (if ok then 1 else 0)
    {
      if filename !in disk.files {
        return false;
      }
      var f := disk.files[filename];
      LoadableIffWholeRecords(f);
      var fileSize := Size(f);
      if fileSize % RecordWidth != 0 {
        return false;
      }
      if !allocOk || !readOk {
        return false;
      }
      mainDataBuffers := mainDataBuffers + 1;
      MergeRecords(f.records, QLearning(usage));
      InsertRecordsKeepValid(old(Snapshot()), f.records, QLearning(usage));
      ok := true;
    }

    /** The loop of `load` over the records of a file buffer, in file order. */
    method MergeRecords(records: seq<Record>, qLearning: bool)
      modifies this`ht, this`keys, this`needPersisting
      ensures Reflects(InsertRecords(old(Snapshot()), records, qLearning), old(needPersisting))
    {
      ghost var start, dirty0 := Snapshot(), needPersisting;
      var i := 0;
      while i < |records|
        invariant 0 <= i <= |records|
        invariant Reflects(InsertRecords(start, records[..i], qLearning), dirty0)
      {
        MergeNext(records, i, qLearning, start, dirty0);
        i := i + 1;
      }
      assert records[..i] == records;
    }

    /** One round of the loop of `load`: merge record `i`. */
    method MergeNext(records: seq<Record>, i: nat, qLearning: bool, ghost start: Index, ghost dirty0: bool)
      requires i < |records|
      requires Reflects(InsertRecords(start, records[..i], qLearning), dirty0)
      modifies this`ht, this`keys, this`needPersisting
      ensures Reflects(InsertRecords(start, records[..i + 1], qLearning), dirty0)
    {
      InsertRecordsStep(start, records, i, qLearning);
      InsertOrUpdate(records[i], qLearning);
    }

    /** Empty the index and release both buffer lists. The dirty and pause
        flags are left as they are. */
    method Clear()
      modifies this`ht, this`keys, this`mainDataBuffers, this`newMovesDataBuffers
      ensures Valid() && Snapshot() == Empty
      ensures mainDataBuffers == 0 && newMovesDataBuffers == 0
    {
      ht, keys := map[], [];
      mainDataBuffers := 0;
      newMovesDataBuffers := 0;
    }

    /** Write the index out unless it is empty or clean: every entry to the
        temporary file, then delete the canonical file and rename the
        temporary file to it, then clear the dirty flag. */
    method Persist(disk: Disk, concurrent: bool, unique: string)
      requires Valid()
      modifies this`needPersisting, disk
      ensures Valid()
      ensures disk.files == PersistedFiles(old(disk.files), Snapshot(), old(needPersisting), concurrent, unique)
      ensures needPersisting == DirtyAfterPersist(Snapshot(), old(needPersisting))
    {
      if ht == map[] || !needPersisting {
        return;
      }
      var experienceFilename := CanonicalName(concurrent, unique);
      var tempExperienceFilename := TempName(concurrent, unique);
      var out := CollectRecords();
      ghost var before := disk.files;
      disk.Write(tempExperienceFilename, StoredFile(out, 0));
      disk.Remove(experienceFilename);
      disk.Rename(tempExperienceFilename, experienceFilename);
      assert disk.files == (before - {tempExperienceFilename})[experienceFilename := StoredFile(out, 0)];
      needPersisting := false;
    }

    /** The traversal of `HT` that `persist` writes out: for each key in
        traversal order, one record per entry. */
    method CollectRecords() returns (out: seq<Record>)
      requires Valid()
      ensures out == AllRecords(Snapshot())
    {
      out := [];
      var i := 0;
      while i < |keys|
        invariant 0 <= i <= |keys|
        invariant out == Records(ht, keys[..i])
      {
        var k := keys[i];
        var es := ht[k];
        var j := 0;
        while j < |es|
          invariant 0 <= j <= |es|
          invariant out == Records(ht, keys[..i]) + KeyRecords(k, es[..j])
        {
          assert KeyRecords(k, es[..j + 1]) == KeyRecords(k, es[..j]) + [Record(k, es[j])];
          out := out + [Record(k, es[j])];
          j := j + 1;
        }
        assert es[..j] == es;
        RecordsOfPrefix(ht, keys, i);
        i := i + 1;
      }
      assert keys[..i] == keys;
    }

    /** Start-up consolidation: empty the store, load the canonical file,
        then the leftover of an interrupted persist, then the slave files;
        when a leftover or a slave loaded, persist and delete them; finally
        mark the store clean. `slaveCount` is the number of slave files that
        loaded. */
    method Init(disk: Disk, usage: PersistedLearningUsage, concurrent: bool, unique: string)
      returns (ghost slaveCount: nat)
      requires Valid()
      modifies this`ht, this`keys, this`needPersisting, this`mainDataBuffers, this`newMovesDataBuffers, disk
      ensures Valid()
      ensures forall j :: 0 <= j < slaveCount ==> LoadableAt(old(disk.files), SlaveName(j))
      ensures !LoadableAt(old(disk.files), SlaveName(slaveCount))
      ensures var st := InsertRecords(Empty, StartupRecords(old(disk.files), slaveCount), QLearning(usage));
        && Snapshot() == st.index
        && disk.files == FilesAfterInit(old(disk.files), slaveCount, st.index,
                                        old(needPersisting) || st.changed, concurrent, unique)
      ensures !needPersisting
      ensures mainDataBuffers == (if LoadableAt(old(disk.files), StartupName) then 1 else 0)
                                 + |ConsumedFiles(old(disk.files), slaveCount)|
      ensures newMovesDataBuffers == 0
    {
      ghost var files := disk.files;
      var slaveFiles;
      slaveFiles, slaveCount := LoadStartupFiles(disk, usage);
      if |slaveFiles| > 0 {
        Persist(disk, concurrent, unique);
      }
      disk.RemoveAll(slaveFiles);
      needPersisting := false;
    }

    /** The loading half of `init`: empty the store, then load the canonical
        file, the leftover of an interrupted persist and the slave files, in
        that order. Returns the names of the files that `init` then deletes. */
    method LoadStartupFiles(disk: Disk, usage: PersistedLearningUsage)
      returns (slaveFiles: seq<FileName>, ghost slaveCount: nat)
      requires Valid()
      modifies this`ht, this`keys, this`needPersisting, this`mainDataBuffers, this`newMovesDataBuffers
      ensures Valid()
      ensures slaveFiles == ConsumedFiles(disk.files, slaveCount)
      ensures forall j :: 0 <= j < slaveCount ==> LoadableAt(disk.files, SlaveName(j))
      ensures !LoadableAt(disk.files, SlaveName(slaveCount))
      ensures var st := InsertRecords(Empty, StartupRecords(disk.files, slaveCount), QLearning(usage));
        && Snapshot() == st.index
        && needPersisting == (old(needPersisting) || st.changed)
      ensures mainDataBuffers == (if LoadableAt(disk.files, StartupName) then 1 else 0) + |slaveFiles|
      ensures newMovesDataBuffers == 0
    {
      ghost var files := disk.files;
      slaveFiles := LoadMainFiles(disk, usage);
      var slaves := LoadSlaveFiles(disk, usage);
      slaveCount := |slaves|;
      slaveFiles := slaveFiles + slaves;
      ghost var mid := InsertRecords(Empty, MainRecords(files), QLearning(usage));
      FeedSlavesInOrder(mid.index, files, slaveCount, QLearning(usage));
      InsertRecordsAppend(Empty, MainRecords(files), SlaveRecords(files, slaveCount), QLearning(usage));
    }

    /** The first two loads of `init` on an emptied store: the canonical
        file, then the leftover of an interrupted persist. Returns the
        leftover's name when it loaded. */
    method LoadMainFiles(disk: Disk, usage: PersistedLearningUsage) returns (leftover: seq<FileName>)
      modifies this`ht, this`keys, this`needPersisting, this`mainDataBuffers, this`newMovesDataBuffers
      ensures Valid()
      ensures leftover == LoadedLeftover(disk.files)
      ensures var st := InsertRecords(Empty, MainRecords(disk.files), QLearning(usage));
        && Snapshot() == st.index
        && needPersisting == (old(needPersisting) || st.changed)
      ensures mainDataBuffers == (if LoadableAt(disk.files, StartupName) then 1 else 0) + |leftover|
      ensures newMovesDataBuffers == 0
    {
      ghost var files := disk.files;
      ghost var q := QLearning(usage);
      Clear();
      var _ := Load(disk, StartupName, usage, true, true);
      ghost var s0 := InsertRecords(Empty, RecordsAt(files, StartupName), q);
      leftover := [];
      var loaded := Load(disk, LeftoverName, usage, true, true);
      if loaded {
        leftover := leftover + [LeftoverName];
      }
      InsertRecordsAppend(Empty, RecordsAt(files, StartupName), RecordsAt(files, LeftoverName), q);
    }

    /** The slave-file loop of `init`: load `experience0.bin`,
        `experience1.bin`, ... until the first one that does not load, and
        return the names of those that did. */
    method LoadSlaveFiles(disk: Disk, usage: PersistedLearningUsage) returns (slaveFiles: seq<FileName>)
      requires Valid()
      modifies this`ht, this`keys, this`needPersisting, this`mainDataBuffers
      ensures Valid()
      ensures slaveFiles == SlaveNames(|slaveFiles|)
      ensures forall j :: 0 <= j < |slaveFiles| ==> LoadableAt(disk.files, SlaveName(j))
      ensures !LoadableAt(disk.files, SlaveName(|slaveFiles|))
      ensures var st := FeedSlaves(old(Snapshot()), disk.files, |slaveFiles|, QLearning(usage));
        && Snapshot() == st.index
        && needPersisting == (old(needPersisting) || st.changed)
      ensures mainDataBuffers == old(mainDataBuffers) + |slaveFiles|
    {
      ghost var start := Snapshot();
      ghost var dirty0 := needPersisting;
      slaveFiles := [];
      var i := 0;
      while true
        invariant Valid()
        invariant i == |slaveFiles| && slaveFiles == SlaveNames(i)
        invariant forall j :: 0 <= j < i ==> LoadableAt(disk.files, SlaveName(j))
        invariant Fed(start, dirty0, disk.files, i, usage)
        invariant mainDataBuffers == old(mainDataBuffers) + i
        decreases |disk.files.Keys| - i
      {
        SlavesFitOnDisk(disk.files, i);
        var slaveFile := SlaveName(i);
        var loaded := LoadSlave(disk, i, usage, start, dirty0);
        if !loaded {
          break;
        }
        slaveFiles := slaveFiles + [slaveFile];
        i := i + 1;
      }
    }

    /** The store holds what loading slaves `0 .. n-1` on top of `start`
        gives. */
    ghost predicate Fed(start: Index, dirty0: bool, files: FileMap, n: nat, usage: PersistedLearningUsage)
      reads this
    {
      var st := FeedSlaves(start, files, n, QLearning(usage));
      Snapshot() == st.index && needPersisting == (dirty0 || st.changed)
    }

    /** One round of the slave loop: load slave `i`. */
    method LoadSlave(disk: Disk, i: nat, usage: PersistedLearningUsage, ghost start: Index, ghost dirty0: bool)
      returns (loaded: bool)
      requires Valid() && Fed(start, dirty0, disk.files, i, usage)
      modifies this`ht, this`keys, this`needPersisting, this`mainDataBuffers
      ensures Valid()
      ensures loaded == LoadableAt(disk.files, SlaveName(i))
      ensures loaded ==> Fed(start, dirty0, disk.files, i + 1, usage)
      ensures !loaded ==> Fed(start, dirty0, disk.files, i, usage)
      ensures mainDataBuffers == old(mainDataBuffers) + (if loaded then 1 else 0)
    {
      loaded := Load(disk, SlaveName(i), usage, true, true);
    }

    /** Stop the engine from feeding new results into the store. */
    method Pause()
      modifies this`isPaused
      ensures isPaused && IsPaused()
    {
      isPaused := true;
    }

    method Resume()
      modifies this`isPaused
      ensures !isPaused && !IsPaused()
    {
      isPaused := false;
    }

    /** Whether the store is paused: set by `Pause`, cleared by `Resume`,
        and untouched by every other operation. */
    function IsPaused(): (paused: bool)
      reads this
      ensures paused <==> isPaused
    {
      isPaused
    }

    /** Record a result found by the running search: allocate a one-record
        buffer (nothing happens if that fails), then merge it under the
        configured mode. */
    method AddNewLearning(key: Key, lm: LearningMove, usage: PersistedLearningUsage, allocOk: bool)
      requires Valid()
      modifies this`ht, this`keys, this`needPersisting, this`newMovesDataBuffers
      ensures Valid()
      ensures var st := InsertRecord(old(Snapshot()), Record(key, lm), QLearning(usage));
        && Snapshot() == (if allocOk then st.index else old(Snapshot()))
        && needPersisting == (old(needPersisting) || (allocOk && st.changed))
        && newMovesDataBuffers == old(newMovesDataBuffers) + (if allocOk then 1 else 0)
    {
      if !allocOk {
        return;
      }
      newMovesDataBuffers := newMovesDataBuffers + 1;
      InsertKeepsValid(Snapshot(), Record(key, lm), QLearning(usage));
      InsertOrUpdate(Record(key, lm), QLearning(usage));
    }

    /** `probe` on the current index: nothing for an unknown key;
        otherwise the number of distinct moves stored under it, which is the
        number of its entries, and the entry in its first slot. */
    function Probe(key: Key): (r: ProbeResult)
      reads this
      requires Valid()
      ensures key !in ht ==> r.count == 0 && r.best.None?
      ensures key in ht ==>
        && r.count == |ht[key]| == |Moves(ht[key])|
        && r.count > 0
        && r.best == Some(ht[key][0])
    {
      ExperienceIndex.Probe(Snapshot(), key)
    }

    /** `probe_move`: scan the key's entries for `move`. */
    method ProbeMove(key: Key, move: int) returns (r: Option<LearningMove>)
      ensures r == ExperienceIndex.ProbeMove(Snapshot(), key, move)
    {
      if key !in ht {
        return None;
      }
      var range := ht[key];
      var itr := FindMove(range, move);
      if itr == |range| {
        return None;
      }
      return Some(range[itr]);
    }
  }
}
