/** The experience files: their names, what `persist` leaves on disk, and
    which records start-up consolidation feeds into the index. The file
    system is a map from file name to contents; path mapping into the data
    directory is the identity. */
module ExperienceFiles {
  import opened LearnTypes
  import opened ExperienceIndex

  // ---------------------------------------------------------------------
  // Names

  /** The experience files the store reads or writes, by kind: the store
      (`experience.bin`, or `experience-<suffix>.bin` in concurrent mode),
      the temporary file of a persist (`experience_new.bin`, or
      `experience_new-<suffix>.bin`), and slave file `i`
      (`experience<i>.bin`). `Path` gives each its file name. */
  datatype FileName =
    | Store(suffix: Option<string>)
    | StoreNew(suffix: Option<string>)
    | Slave(index: nat)

  /** The data directory: contents by file name. Files of other names are
      never read or written by the store and are not represented. */
  type FileMap = map<FileName, StoredFile>

  function DigitChar(d: nat): char
    requires d < 10
  {
    (48 + d) as char
  }

  /** `std::to_string` on a non-negative number: its decimal digits, with
      no leading zero. */
  function NatToString(n: nat): (s: string)
    ensures |s| > 0
    ensures |s| == 1 <==> n < 10
    ensures forall i :: 0 <= i < |s| ==> '0' <= s[i] <= '9'
    ensures s[0] == '0' <==> n == 0
    decreases n
  {
    if n < 10 then [DigitChar(n)] else NatToString(n / 10) + [DigitChar(n % 10)]
  }

  /** The number a string of decimal digits denotes. */
  function DecimalValue(s: string): nat
    requires forall i :: 0 <= i < |s| ==> '0' <= s[i] <= '9'
  {
    if |s| == 0 then 0
    else DecimalValue(s[..|s| - 1]) * 10 + (s[|s| - 1] as int - '0' as int)
  }

  /** Reading back the digits gives the number. */
  lemma {:induction false} NatToStringRoundTrip(n: nat)
    ensures DecimalValue(NatToString(n)) == n
    decreases n
  {
    var s := NatToString(n);
    if n >= 10 {
      assert s[..|s| - 1] == NatToString(n / 10);
      NatToStringRoundTrip(n / 10);
    }
  }

  /** Different numbers render differently. */
  lemma {:induction false} NatToStringInjective(a: nat, b: nat)
    requires NatToString(a) == NatToString(b)
    ensures a == b
    decreases a
  {
    var sa, sb := NatToString(a), NatToString(b);
    if a < 10 {
      assert b < 10;
      assert sa[0] == DigitChar(a) && sb[0] == DigitChar(b);
    } else {
      assert sa[|sa| - 1] == DigitChar(a % 10);
      assert sb[|sb| - 1] == DigitChar(b % 10);
      assert sa[..|sa| - 1] == NatToString(a / 10);
      assert sb[..|sb| - 1] == NatToString(b / 10);
      NatToStringInjective(a / 10, b / 10);
    }
  }

  /** The file name of each kind of experience file. */
  function Path(n: FileName): string
  {
    match n
    case Store(None) => "experience.bin"
    case Store(Some(u)) => "experience-" + u + ".bin"
    case StoreNew(None) => "experience_new.bin"
    case StoreNew(Some(u)) => "experience_new-" + u + ".bin"
    case Slave(i) => "experience" + NatToString(i) + ".bin"
  }

  /** What tells the names apart: the character after "experience", the one
      after "experience_new", and where the suffix or the number sits. */
  lemma PathShape(n: FileName)
    ensures |Path(n)| > 10
    ensures n == Store(None) ==> Path(n)[10] == '.'
    ensures n.Store? && n.suffix.Some? ==>
      && Path(n)[10] == '-'
      && |Path(n)| == |n.suffix.value| + 15
      && Path(n)[11..11 + |n.suffix.value|] == n.suffix.value
    ensures n.StoreNew? ==> Path(n)[10] == '_' && |Path(n)| > 14
    ensures n == StoreNew(None) ==> Path(n)[14] == '.'
    ensures n.StoreNew? && n.suffix.Some? ==>
      && Path(n)[14] == '-'
      && |Path(n)| == |n.suffix.value| + 19
      && Path(n)[15..15 + |n.suffix.value|] == n.suffix.value
    ensures n.Slave? ==>
      && '0' <= Path(n)[10] <= '9'
      && |Path(n)| == |NatToString(n.index)| + 14
      && Path(n)[10..10 + |NatToString(n.index)|] == NatToString(n.index)
  {
    match n
    case Store(None) =>
    case Store(Some(u)) =>
      assert Path(n) == "experience-" + u + ".bin";
    case StoreNew(None) =>
    case StoreNew(Some(u)) =>
      assert Path(n) == "experience_new-" + u + ".bin";
    case Slave(i) =>
      var d := NatToString(i);
      assert Path(n) == "experience" + d + ".bin";
      assert Path(n)[10] == d[0];
  }

  /** Different files have different names, whatever the suffix: the
      store never confuses one of its files with another, and two processes
      with different suffixes use disjoint files. */
  lemma PathInjective(a: FileName, b: FileName)
    ensures Path(a) == Path(b) <==> a == b
  {
    PathShape(a);
    PathShape(b);
    if a.Slave? && b.Slave? && Path(a) == Path(b) {
      NatToStringInjective(a.index, b.index);
    }
  }

  /** The store in the current mode. In concurrent mode it carries the
      process-unique suffix, which the model takes as a parameter. */
  function CanonicalName(concurrent: bool, unique: string): FileName
  {
    Store(if concurrent then Some(unique) else None)
  }

  /** The file `persist` writes before renaming it over the store. */
  function TempName(concurrent: bool, unique: string): FileName
  {
    StoreNew(if concurrent then Some(unique) else None)
  }

  /** The name `init` loads the store from, whatever the mode. */
  const StartupName: FileName := Store(None)

  /** The leftover of an interrupted persist that `init` looks for. */
  const LeftoverName: FileName := StoreNew(None)

  /** Slave file number `i`. */
  function SlaveName(i: nat): FileName
  {
    Slave(i)
  }

  // ---------------------------------------------------------------------
  // Persist

  /** The dirty flag after `persist`: cleared exactly when something was
      written. */
  function DirtyAfterPersist(ix: Index, dirty: bool): bool
  {
    dirty && ix.ht == map[]
  }

  /** The files after `persist`: nothing happens when the index is empty or
      not dirty; otherwise the records go to the temporary file, the
      canonical file is removed and the temporary file is renamed to it. */
  function PersistedFiles(files: FileMap, ix: Index, dirty: bool, concurrent: bool, unique: string): FileMap
    requires Valid(ix)
  {
    if ix.ht == map[] || !dirty then files
    else (files - {TempName(concurrent, unique)})[CanonicalName(concurrent, unique) := StoredFile(AllRecords(ix), 0)]
  }

  /** A persist that writes leaves one loadable canonical file holding one
      record per index entry, and no temporary file. */
  lemma PersistWritesCanonical(files: FileMap, ix: Index, dirty: bool, concurrent: bool, unique: string)
    requires Valid(ix) && ix.ht != map[] && dirty
    ensures var after := PersistedFiles(files, ix, dirty, concurrent, unique);
      && CanonicalName(concurrent, unique) in after
      && Loadable(after[CanonicalName(concurrent, unique)])
      && after[CanonicalName(concurrent, unique)].records == AllRecords(ix)
      && TempName(concurrent, unique) !in after
      && !DirtyAfterPersist(ix, dirty)
  {
    LoadableIffWholeRecords(StoredFile(AllRecords(ix), 0));
  }

  /** Persist changes no file other than its own two. */
  lemma PersistTouchesOnlyItsNames(files: FileMap, ix: Index, dirty: bool, concurrent: bool, unique: string, name: FileName)
    requires Valid(ix)
    requires name != CanonicalName(concurrent, unique) && name != TempName(concurrent, unique)
    ensures var after := PersistedFiles(files, ix, dirty, concurrent, unique);
      && (name in after <==> name in files)
      && (name in files ==> after[name] == files[name])
  {
  }

  /** A second persist without a mutation in between writes nothing. */
  lemma PersistIdempotent(files: FileMap, ix: Index, dirty: bool, concurrent: bool, unique: string)
    requires Valid(ix)
    ensures var once := PersistedFiles(files, ix, dirty, concurrent, unique);
      PersistedFiles(once, ix, DirtyAfterPersist(ix, dirty), concurrent, unique) == once
  {
  }

  // ---------------------------------------------------------------------
  // Start-up consolidation

  /** `load` succeeds on `name`: the file exists and holds whole records
      only, which is what its size check accepts (`LoadableIffWholeRecords`). */
  predicate LoadableAt(files: FileMap, name: FileName)
  {
    name in files && files[name].tail == 0
  }

  /** The records that a load of `name` feeds into the index. */
  function RecordsAt(files: FileMap, name: FileName): seq<Record>
  {
    if LoadableAt(files, name) then files[name].records else []
  }

  /** Slave files `0 .. n-1`, by name. */
  function SlaveNames(n: nat): (names: seq<FileName>)
    ensures |names| == n
    ensures forall j :: 0 <= j < n ==> names[j] == SlaveName(j)
    decreases n
  {
    if n == 0 then [] else SlaveNames(n - 1) + [SlaveName(n - 1)]
  }

  /** The records of slave files `0 .. n-1`, in that order. */
  function SlaveRecords(files: FileMap, n: nat): seq<Record>
    decreases n
  {
    if n == 0 then [] else SlaveRecords(files, n - 1) + RecordsAt(files, SlaveName(n - 1))
  }

  /** Loading slave files `0 .. n-1` one after the other. */
  function FeedSlaves(ix: Index, files: FileMap, n: nat, q: bool): Step
    decreases n
  {
    if n == 0 then Step(ix, false)
    else
      var p := FeedSlaves(ix, files, n - 1, q);
      var t := InsertRecords(p.index, RecordsAt(files, SlaveName(n - 1)), q);
      Step(t.index, p.changed || t.changed)
  }

  /** Loading the slaves one by one feeds their records in number order. */
  lemma {:induction false} FeedSlavesInOrder(ix: Index, files: FileMap, n: nat, q: bool)
    ensures FeedSlaves(ix, files, n, q) == InsertRecords(ix, SlaveRecords(files, n), q)
    decreases n
  {
    if n > 0 {
      FeedSlavesInOrder(ix, files, n - 1, q);
      InsertRecordsAppend(ix, SlaveRecords(files, n - 1), RecordsAt(files, SlaveName(n - 1)), q);
    }
  }

  /** Everything `init` feeds into the emptied index when the first `n`
      slave files load: the canonical file, the leftover of an interrupted
      persist, then the slaves in number order. */
  function StartupRecords(files: FileMap, n: nat): seq<Record>
  {
    MainRecords(files) + SlaveRecords(files, n)
  }

  /** The records of the canonical file followed by those of the leftover. */
  function MainRecords(files: FileMap): seq<Record>
  {
    RecordsAt(files, StartupName) + RecordsAt(files, LeftoverName)
  }

  /** The files `init` deletes: the leftover when it loaded, then the
      slaves. */
  function ConsumedFiles(files: FileMap, n: nat): seq<FileName>
  {
    LoadedLeftover(files) + SlaveNames(n)
  }

  /** The leftover's name when it loads, else nothing. */
  function LoadedLeftover(files: FileMap): seq<FileName>
  {
    if LoadableAt(files, LeftoverName) then [LeftoverName] else []
  }

  /** The names listed in `names`. */
  function NameSet(names: seq<FileName>): set<FileName>
  {
    set name | name in names
  }

  /** The disk after `init`: when a leftover or a slave loaded, the
      consolidated index is persisted (still subject to persist's own dirty
      and empty checks); then the consumed files are deleted. */
  function FilesAfterInit(files: FileMap, n: nat, loaded: Index, dirty: bool, concurrent: bool, unique: string): FileMap
    requires Valid(loaded)
  {
    var written := if |ConsumedFiles(files, n)| > 0
                   then PersistedFiles(files, loaded, dirty, concurrent, unique)
                   else files;
    written - NameSet(ConsumedFiles(files, n))
  }

  /** What `init` leaves on disk: every file it consumed is gone; when it
      persisted something, the store of the current mode holds the
      consolidated records; and when it did not, the canonical store it
      loaded from is untouched. */
  lemma InitLeavesOnDisk(files: FileMap, n: nat, loaded: Index, dirty: bool, concurrent: bool, unique: string)
    requires Valid(loaded)
    ensures var after := FilesAfterInit(files, n, loaded, dirty, concurrent, unique);
      && (forall name :: name in ConsumedFiles(files, n) ==> name !in after)
      && (|ConsumedFiles(files, n)| > 0 && dirty && loaded.ht != map[] ==>
            && CanonicalName(concurrent, unique) in after
            && after[CanonicalName(concurrent, unique)] == StoredFile(AllRecords(loaded), 0))
      && (StartupName in files && (|ConsumedFiles(files, n)| == 0 || !dirty || loaded.ht == map[]) ==>
            StartupName in after && after[StartupName] == files[StartupName])
  {
    var consumed := ConsumedFiles(files, n);
    assert StartupName !in consumed;
    assert CanonicalName(concurrent, unique) !in consumed;
  }

  /** The first `n` slave names, as a set. */
  function SlaveNameSet(n: nat): set<FileName>
  {
    set j | 0 <= j < n :: SlaveName(j)
  }

  lemma {:induction false} SlaveNameSetSize(n: nat)
    ensures |SlaveNameSet(n)| == n
    decreases n
  {
    if n > 0 {
      SlaveNameSetSize(n - 1);
      assert SlaveNameSet(n) == SlaveNameSet(n - 1) + {SlaveName(n - 1)};
    }
  }

  /** Only finitely many slave files can exist at once: `n` of them take `n`
      distinct names on disk. This is why the slave loop of `init` stops. */
  lemma SlavesFitOnDisk(files: FileMap, n: nat)
    requires forall j :: 0 <= j < n ==> LoadableAt(files, SlaveName(j))
    ensures n <= |files.Keys|
  {
    SlaveNameSetSize(n);
    var names := SlaveNameSet(n);
    assert names <= files.Keys;
    assert files.Keys == names + (files.Keys - names);
  }
}
