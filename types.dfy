/** Values shared by the experience store: position keys, learning moves,
    the persisted record and the learning mode. */
module LearnTypes {

  /** A 64-bit Zobrist hash identifying a board position. */
  type Key = k: int | 0 <= k < 0x1_0000_0000_0000_0000

  /** One candidate move for a position with the search depth and the score
      that support it. The move is an opaque encoded value: the store only
      compares moves for equality, and depth and score only with `<` and `==`. */
  datatype LearningMove = LearningMove(move: int, depth: int, score: int)

  /** The persisted unit: a position key and one learning move. */
  datatype Record = Record(key: Key, lm: LearningMove)

  /** The "Persisted learning" setting. */
  datatype PersistedLearningUsage = Off | Standard | Self

  /** The merge runs in Self ("q-learning") mode exactly when the setting is
      Self; Off merges under the Standard rule. */
  predicate QLearning(usage: PersistedLearningUsage)
  {
    usage == Self
  }

  datatype Option<T> = None | Some(value: T)

  /** Width in bytes of one persisted record. The record's declaration is
      not part of this model, so the value is an assumed positive constant;
      the proofs use only that it is positive. */
  const RecordWidth: nat := 24

  /** Bytes at the end of a file that do not form a whole record. */
  type Tail = t: nat | t < RecordWidth

  /** A file's contents: the whole records it holds, in file order, and the
      number of bytes after the last whole record. */
  datatype StoredFile = StoredFile(records: seq<Record>, tail: Tail)

  /** The file size that `tellg` reports. */
  function Size(f: StoredFile): nat
  {
    |f.records| * RecordWidth + f.tail
  }

  /** The only validity check a file gets: its size is a multiple of the
      record width. */
  predicate Loadable(f: StoredFile)
  {
    Size(f) % RecordWidth == 0
  }

  /** A file passes the check exactly when it holds no partial record. */
  lemma LoadableIffWholeRecords(f: StoredFile)
    ensures Loadable(f) <==> f.tail == 0
  {
    var n := |f.records|;
    assert Size(f) == n * RecordWidth + f.tail;
    assert (n * RecordWidth + f.tail) % RecordWidth == f.tail % RecordWidth;
  }

  /** How many records the `do ... while` loop of `load` hands to the merge
      for a buffer of `size` bytes: the body runs once before the bound is
      first tested, and again while a whole record remains. */
  function DoWhileRounds(size: nat): (n: nat)
    ensures n >= 1
    decreases size
  {
    if size <= RecordWidth then 1 else 1 + DoWhileRounds(size - RecordWidth)
  }

  /** On a file that passes the size check and holds at least one record, the
      loop visits exactly the file's records. */
  lemma {:induction false} DoWhileRoundsOfWholeRecords(f: StoredFile)
    requires Loadable(f) && |f.records| > 0
    ensures DoWhileRounds(Size(f)) == |f.records|
    decreases |f.records|
  {
    LoadableIffWholeRecords(f);
    if |f.records| > 1 {
      var g := StoredFile(f.records[1..], 0);
      assert Size(g) == Size(f) - RecordWidth;
      LoadableIffWholeRecords(g);
      DoWhileRoundsOfWholeRecords(g);
    }
  }

  /** An empty file passes the size check (0 is a multiple of the record
      width), yet the loop still runs its body once: it hands one record to
      the merge that the file does not contain. */
  lemma EmptyFileOverread()
    ensures var f := StoredFile([], 0);
      Loadable(f) && |f.records| == 0 && DoWhileRounds(Size(f)) == 1
  {
  }
}
