/** The experience index as a value: the multi-valued map from position key
    to learning moves, the order in which the index visits its keys, and
    the operations that read it or merge records into it. */
module ExperienceIndex {
  import opened LearnTypes
  import opened MergePolicy

  /** `ht` maps each known key to its entries (first = best); `keys` lists
      the known keys in the order a traversal of the index visits them,
      which the model fixes as first-insertion order. */
  datatype Index = Index(ht: map<Key, seq<LearningMove>>, keys: seq<Key>)

  ghost predicate Valid(ix: Index)
  {
    && (forall i, j :: 0 <= i < j < |ix.keys| ==> ix.keys[i] != ix.keys[j])
    && (forall k :: k in ix.ht <==> k in ix.keys)
    && (forall k :: k in ix.ht ==> |ix.ht[k]| > 0 && DistinctMoves(ix.ht[k]))
  }

  const Empty: Index := Index(map[], [])

  /** Every key's first entry is a lexicographic maximum of (depth, score). */
  ghost predicate StandardBest(ix: Index)
  {
    forall k :: k in ix.ht ==> StandardBestFirst(ix.ht[k])
  }

  /** The entries under `key`, empty for an unknown key (`equal_range`). */
  function EntriesOf(ix: Index, key: Key): seq<LearningMove>
  {
    if key in ix.ht then ix.ht[key] else []
  }

  /** The index after one merge and whether the merge set the dirty flag. */
  datatype Step = Step(index: Index, changed: bool)

  /** `insert_or_update` on the whole index: only the record's key is
      touched; a key seen for the first time joins the end of the traversal. */
  function InsertRecord(ix: Index, r: Record, q: bool): Step
  {
    var m := Merge(EntriesOf(ix, r.key), r.lm, q);
    var keys := if r.key in ix.ht then ix.keys else ix.keys + [r.key];
    Step(Index(ix.ht[r.key := m.entries], keys), m.changed)
  }

  /** Feed records through `insert_or_update` in order; the flag is set when
      any of the merges set it. */
  function InsertRecords(ix: Index, rs: seq<Record>, q: bool): Step
    decreases |rs|
  {
    if |rs| == 0 then Step(ix, false)
    else
      var p := InsertRecords(ix, rs[..|rs| - 1], q);
      var t := InsertRecord(p.index, rs[|rs| - 1], q);
      Step(t.index, p.changed || t.changed)
  }

  /** The records that the entries of one key persist as. */
  function KeyRecords(k: Key, es: seq<LearningMove>): seq<Record>
  {
    seq(|es|, i requires 0 <= i < |es| => Record(k, es[i]))
  }

  /** The records a traversal of `keys` visits, key by key. */
  function Records(ht: map<Key, seq<LearningMove>>, keys: seq<Key>): seq<Record>
    requires forall k :: k in keys ==> k in ht
    decreases |keys|
  {
    if |keys| == 0 then []
    else Records(ht, keys[..|keys| - 1]) + KeyRecords(keys[|keys| - 1], ht[keys[|keys| - 1]])
  }

  /** What `probe` reports: how many entries the key has and its first one. */
  datatype ProbeResult = ProbeResult(count: nat, best: Option<LearningMove>)

  /** `probe`: 0 and no move for an unknown key; otherwise the number of
      distinct moves known for the key and the entry in its first slot. */
  function Probe(ix: Index, key: Key): (r: ProbeResult)
    requires Valid(ix)
    ensures r.count == |Moves(EntriesOf(ix, key))|
    ensures r.count == 0 <==> key !in ix.ht
    ensures r.best.None? <==> key !in ix.ht
    ensures r.best.Some? ==> r.best.value in ix.ht[key] && r.best.value == ix.ht[key][0]
  {
    if key !in ix.ht then ProbeResult(0, None)
    else
      DistinctMovesCount(ix.ht[key]);
      ProbeResult(|ix.ht[key]|, Some(ix.ht[key][0]))
  }

  /** `probe_move`: the entry stored for `move` under `key`, if any. */
  function ProbeMove(ix: Index, key: Key, move: int): (r: Option<LearningMove>)
    ensures r.Some? ==> key in ix.ht && r.value in ix.ht[key] && r.value.move == move
    ensures r.None? <==> key !in ix.ht || move !in Moves(ix.ht[key])
  {
    if key !in ix.ht then None
    else
      var i := IndexOfMove(ix.ht[key], move);
      if i == |ix.ht[key]| then None else Some(ix.ht[key][i])
  }

  // ---------------------------------------------------------------------
  // One merge on the whole index

  /** A record for a key the index does not know gives that key exactly one
      entry, the incoming learning move, sets the flag and leaves every other
      key as it was. */
  lemma InsertUnknownKey(ix: Index, r: Record, q: bool)
    requires r.key !in ix.ht
    ensures var st := InsertRecord(ix, r, q);
      && st.changed
      && st.index.ht[r.key] == [r.lm]
      && st.index.keys == ix.keys + [r.key]
      && (forall k :: k != r.key ==> EntriesOf(st.index, k) == EntriesOf(ix, k))
  {
    MergeAddsUnknownMove([], r.lm, q);
  }

  /** Any merge touches only the record's own key. */
  lemma InsertTouchesOnlyItsKey(ix: Index, r: Record, q: bool, k: Key)
    requires k != r.key
    ensures EntriesOf(InsertRecord(ix, r, q).index, k) == EntriesOf(ix, k)
  {
  }

  lemma InsertKeepsValid(ix: Index, r: Record, q: bool)
    requires Valid(ix)
    ensures Valid(InsertRecord(ix, r, q).index)
  {
    MergeKeepsMovesDistinct(EntriesOf(ix, r.key), r.lm, q);
    var ix' := InsertRecord(ix, r, q).index;
    if r.key !in ix.ht {
      assert r.key !in ix.keys;
      forall i, j | 0 <= i < j < |ix'.keys| ensures ix'.keys[i] != ix'.keys[j] {
        if j == |ix.keys| { assert ix.keys[i] in ix.keys; }
      }
    }
  }

  lemma {:induction false} InsertRecordsKeepValid(ix: Index, rs: seq<Record>, q: bool)
    requires Valid(ix)
    ensures Valid(InsertRecords(ix, rs, q).index)
    decreases |rs|
  {
    if |rs| > 0 {
      InsertRecordsKeepValid(ix, rs[..|rs| - 1], q);
      InsertKeepsValid(InsertRecords(ix, rs[..|rs| - 1], q).index, rs[|rs| - 1], q);
    }
  }

  /** Under the Standard rule, across any sequence of merges, the first entry
      of every key stays a lexicographic maximum of (depth, score) among that
      key's entries. */
  lemma {:induction false} InsertRecordsKeepStandardBest(ix: Index, rs: seq<Record>)
    requires StandardBest(ix)
    ensures StandardBest(InsertRecords(ix, rs, false).index)
    decreases |rs|
  {
    if |rs| > 0 {
      var p := InsertRecords(ix, rs[..|rs| - 1], false).index;
      InsertRecordsKeepStandardBest(ix, rs[..|rs| - 1]);
      var r := rs[|rs| - 1];
      assert StandardBestFirst(EntriesOf(p, r.key));
      MergeKeepsStandardBestFirst(EntriesOf(p, r.key), r.lm);
    }
  }

  /** Feeding one more record of `rs` is one more merge. */
  lemma InsertRecordsStep(ix: Index, rs: seq<Record>, i: nat, q: bool)
    requires i < |rs|
    ensures InsertRecords(ix, rs[..i + 1], q)
            == var p := InsertRecords(ix, rs[..i], q);
               var t := InsertRecord(p.index, rs[i], q);
               Step(t.index, p.changed || t.changed)
  {
    assert rs[..i + 1][..i] == rs[..i];
  }

  /** Feeding `a + b` is feeding `a`, then `b`. */
  lemma {:induction false} InsertRecordsAppend(ix: Index, a: seq<Record>, b: seq<Record>, q: bool)
    ensures InsertRecords(ix, a + b, q)
            == var p := InsertRecords(ix, a, q);
               var t := InsertRecords(p.index, b, q);
               Step(t.index, p.changed || t.changed)
    decreases |b|
  {
    if |b| == 0 {
      assert a + b == a;
    } else {
      var b' := b[..|b| - 1];
      assert (a + b)[..|a + b| - 1] == a + b';
      assert (a + b)[|a + b| - 1] == b[|b| - 1];
      InsertRecordsAppend(ix, a, b', q);
    }
  }

  // ---------------------------------------------------------------------
  // What `persist` writes

  lemma {:induction false} RecordsOfPrefix(ht: map<Key, seq<LearningMove>>, keys: seq<Key>, n: nat)
    requires forall k :: k in keys ==> k in ht
    requires n < |keys|
    ensures Records(ht, keys[..n + 1]) == Records(ht, keys[..n]) + KeyRecords(keys[n], ht[keys[n]])
  {
    assert keys[..n + 1][..n] == keys[..n];
  }

  /** The records of a traversal hold each entry of each visited key exactly
      once, and nothing else. */
  lemma {:induction false} RecordsCount(ht: map<Key, seq<LearningMove>>, keys: seq<Key>, k: Key, e: LearningMove)
    requires forall x :: x in keys ==> x in ht
    requires forall i, j :: 0 <= i < j < |keys| ==> keys[i] != keys[j]
    ensures multiset(Records(ht, keys))[Record(k, e)]
            == if k in keys then multiset(ht[k])[e] else 0
    decreases |keys|
  {
    if |keys| > 0 {
      var init := keys[..|keys| - 1];
      var last := keys[|keys| - 1];
      RecordsCount(ht, init, k, e);
      var kr := KeyRecords(last, ht[last]);
      assert multiset(Records(ht, keys)) == multiset(Records(ht, init)) + multiset(kr);
      KeyRecordsCount(last, ht[last], k, e);
      assert keys == init + [last];
      if k == last {
        assert k !in init by {
          forall i | 0 <= i < |init| ensures init[i] != k {
            assert init[i] == keys[i];
          }
        }
      }
    }
  }

  lemma {:induction false} KeyRecordsCount(last: Key, es: seq<LearningMove>, k: Key, e: LearningMove)
    ensures multiset(KeyRecords(last, es))[Record(k, e)]
            == if k == last then multiset(es)[e] else 0
    decreases |es|
  {
    if |es| > 0 {
      var es' := es[..|es| - 1];
      KeyRecordsCount(last, es', k, e);
      assert KeyRecords(last, es) == KeyRecords(last, es') + [Record(last, es[|es| - 1])];
      assert es == es' + [es[|es| - 1]];
    } else {
      assert KeyRecords(last, es) == [];
    }
  }

  /** The records `persist` writes: a traversal of the whole index. */
  function AllRecords(ix: Index): seq<Record>
    requires Valid(ix)
  {
    Records(ix.ht, ix.keys)
  }

  /** `persist` writes one record per index entry and nothing else. */
  lemma AllRecordsCount(ix: Index, k: Key, e: LearningMove)
    requires Valid(ix)
    ensures multiset(AllRecords(ix))[Record(k, e)] == multiset(EntriesOf(ix, k))[e]
  {
    RecordsCount(ix.ht, ix.keys, k, e);
  }

  // ---------------------------------------------------------------------
  // Reloading what was persisted

  /** The entries a key gets when its records are merged into an index that
      does not know it yet. */
  function MergeAll(es: seq<LearningMove>, q: bool): seq<LearningMove>
    decreases |es|
  {
    if |es| == 0 then [] else Merge(MergeAll(es[..|es| - 1], q), es[|es| - 1], q).entries
  }

  lemma {:induction false} InsertKeyRecords(ix: Index, k: Key, es: seq<LearningMove>, q: bool)
    requires k !in ix.ht && |es| > 0
    ensures InsertRecords(ix, KeyRecords(k, es), q).index
            == Index(ix.ht[k := MergeAll(es, q)], ix.keys + [k])
    decreases |es|
  {
    var n := |es|;
    var init, lm := es[..n - 1], es[n - 1];
    KeyRecordsSnoc(k, es);
    InsertRecordsSnoc(ix, KeyRecords(k, init), Record(k, lm), q);
    if n == 1 {
      assert KeyRecords(k, init) == [];
      InsertAgain(ix, k, [], lm, q);
    } else {
      InsertKeyRecords(ix, k, init, q);
      InsertAgain(ix, k, MergeAll(init, q), lm, q);
    }
  }

  lemma KeyRecordsSnoc(k: Key, es: seq<LearningMove>)
    requires |es| > 0
    ensures KeyRecords(k, es) == KeyRecords(k, es[..|es| - 1]) + [Record(k, es[|es| - 1])]
  {
  }

  lemma InsertRecordsSnoc(ix: Index, rs: seq<Record>, r: Record, q: bool)
    ensures InsertRecords(ix, rs + [r], q)
            == var p := InsertRecords(ix, rs, q);
               var t := InsertRecord(p.index, r, q);
               Step(t.index, p.changed || t.changed)
  {
    assert (rs + [r])[..|rs|] == rs;
  }

  /** Merging into a key that `ix` lacks, after `s` was stored for it (or,
      with `s` empty, nothing was). */
  lemma InsertAgain(ix: Index, k: Key, s: seq<LearningMove>, lm: LearningMove, q: bool)
    requires k !in ix.ht
    ensures var before := if |s| == 0 then ix else Index(ix.ht[k := s], ix.keys + [k]);
      InsertRecord(before, Record(k, lm), q).index == Index(ix.ht[k := Merge(s, lm, q).entries], ix.keys + [k])
  {
    if |s| > 0 {
      assert ix.ht[k := s][k := Merge(s, lm, q).entries] == ix.ht[k := Merge(s, lm, q).entries];
    }
  }

  /** Reloading a key's entries (moves pairwise distinct) reproduces them up
      to order; under the Standard rule, when the first entry was a maximum
      the reloaded first entry has the same depth and score. */
  lemma {:induction false} MergeAllReloads(es: seq<LearningMove>, q: bool)
    requires DistinctMoves(es)
    ensures multiset(MergeAll(es, q)) == multiset(es)
    ensures |MergeAll(es, q)| == |es|
    ensures !q ==> StandardBestFirst(MergeAll(es, q))
    decreases |es|
  {
    if |es| > 0 {
      var init := es[..|es| - 1];
      var last := es[|es| - 1];
      assert es == init + [last];
      MergeAllReloads(init, q);
      var m := MergeAll(init, q);
      assert last.move !in Moves(m) by {
        forall x | x in m ensures x.move != last.move {
          assert x in multiset(m);
          assert x in init;
          var p :| 0 <= p < |init| && init[p] == x;
          assert es[p] == x;
        }
      }
      MergeAddsUnknownMove(m, last, q);
      if !q {
        MergeKeepsStandardBestFirst(m, last);
      }
    }
  }

  /** Under Standard, a reloaded key's first entry ties with the original. */
  lemma StandardReloadKeepsBestRank(es: seq<LearningMove>)
    requires |es| > 0 && DistinctMoves(es) && StandardBestFirst(es)
    ensures var m := MergeAll(es, false);
      |m| > 0 && m[0].depth == es[0].depth && m[0].score == es[0].score
  {
    MergeAllReloads(es, false);
    var m := MergeAll(es, false);
    assert m[0] in multiset(es);
    assert es[0] in multiset(m);
    var p :| 0 <= p < |es| && es[p] == m[0];
    var j :| 0 <= j < |m| && m[j] == es[0];
    assert AtLeast(es[0], es[p]);
    assert AtLeast(m[0], m[j]);
  }

  /** The index that merging the persisted records into an empty index
      builds: the same keys in the same order, each key's entries merged one
      by one. */
  function Reloaded(ix: Index, q: bool): Index
  {
    Index(map k | k in ix.ht :: MergeAll(ix.ht[k], q), ix.keys)
  }

  /** `m` cut down to the keys listed in `ks`. */
  function Restrict<V>(m: map<Key, V>, ks: seq<Key>): (r: map<Key, V>)
    ensures forall k :: k in r <==> k in ks && k in m
  {
    map k | k in ks && k in m :: m[k]
  }

  lemma RestrictSnoc<V>(m: map<Key, V>, ks: seq<Key>, k: Key)
    requires k in m
    ensures Restrict(m, ks + [k]) == Restrict(m, ks)[k := m[k]]
  {
    var a, b := Restrict(m, ks + [k]), Restrict(m, ks)[k := m[k]];
    forall j ensures j in a <==> j in b {
      assert j in ks + [k] <==> j in ks || j == k;
    }
  }

  /** The index built by reloading the records of the first `n` keys. */
  function ReloadedPrefix(ix: Index, n: nat, q: bool): Index
    requires n <= |ix.keys|
  {
    Index(Restrict(Reloaded(ix, q).ht, ix.keys[..n]), ix.keys[..n])
  }

  lemma {:induction false} ReloadPrefix(ix: Index, n: nat, q: bool)
    requires Valid(ix) && n <= |ix.keys|
    ensures InsertRecords(Empty, Records(ix.ht, ix.keys[..n]), q).index == ReloadedPrefix(ix, n, q)
  {
    if n == 0 {
      assert Records(ix.ht, ix.keys[..0]) == [];
      assert ReloadedPrefix(ix, 0, q).ht == map[];
    } else {
      ReloadPrefix(ix, n - 1, q);
      ReloadOneMoreKey(ix, n, q);
    }
  }

  /** The records of one more key reload as that key's merged entries. */
  lemma ReloadOneMoreKey(ix: Index, n: nat, q: bool)
    requires Valid(ix) && 0 < n <= |ix.keys|
    requires InsertRecords(Empty, Records(ix.ht, ix.keys[..n - 1]), q).index == ReloadedPrefix(ix, n - 1, q)
    ensures InsertRecords(Empty, Records(ix.ht, ix.keys[..n]), q).index == ReloadedPrefix(ix, n, q)
  {
    var k := ix.keys[n - 1];
    RecordsOfPrefix(ix.ht, ix.keys, n - 1);
    ReloadedPrefixStep(ix, n, q);
    FeedNewKey(Empty, Records(ix.ht, ix.keys[..n - 1]), ReloadedPrefix(ix, n - 1, q), k, ix.ht[k], q);
  }

  /** Feeding the records of a key the index does not know yet, after
      records that built `p`. */
  lemma FeedNewKey(ix: Index, a: seq<Record>, p: Index, k: Key, es: seq<LearningMove>, q: bool)
    requires InsertRecords(ix, a, q).index == p
    requires k !in p.ht && |es| > 0
    ensures InsertRecords(ix, a + KeyRecords(k, es), q).index == Index(p.ht[k := MergeAll(es, q)], p.keys + [k])
  {
    InsertRecordsAppend(ix, a, KeyRecords(k, es), q);
    InsertKeyRecords(p, k, es, q);
  }

  lemma ReloadedPrefixStep(ix: Index, n: nat, q: bool)
    requires Valid(ix) && 0 < n <= |ix.keys|
    ensures var p := ReloadedPrefix(ix, n - 1, q);
      var k := ix.keys[n - 1];
      && k !in p.ht
      && ReloadedPrefix(ix, n, q) == Index(p.ht[k := MergeAll(ix.ht[k], q)], p.keys + [k])
  {
    var k := ix.keys[n - 1];
    var pre := ix.keys[..n - 1];
    assert ix.keys[..n] == pre + [k];
    assert k !in pre by {
      forall i | 0 <= i < |pre| ensures pre[i] != k {
        assert pre[i] == ix.keys[i];
      }
    }
    var m := Reloaded(ix, q).ht;
    assert k in ix.ht && m[k] == MergeAll(ix.ht[k], q);
    RestrictSnoc(m, pre, k);
  }

  lemma ReloadAll(ix: Index, q: bool)
    requires Valid(ix)
    ensures InsertRecords(Empty, AllRecords(ix), q).index == Reloaded(ix, q)
  {
    ReloadPrefix(ix, |ix.keys|, q);
    WholePrefix(ix, q);
  }

  /** The prefix of all keys is the whole reloaded index. */
  lemma WholePrefix(ix: Index, q: bool)
    requires Valid(ix)
    ensures ix.keys[..|ix.keys|] == ix.keys
    ensures ReloadedPrefix(ix, |ix.keys|, q) == Reloaded(ix, q)
  {
    assert ix.keys[..|ix.keys|] == ix.keys;
    var m := Reloaded(ix, q).ht;
    var r := Restrict(m, ix.keys);
    forall j ensures j in r <==> j in m {
      assert j in m <==> j in ix.ht;
    }
    assert r == m;
  }

  /** Persisting the index and merging the written records back into an empty
      index gives back the same keys in the same traversal order, with the
      same entries under each key up to their order, so `probe` reports the
      same count for every key. */
  lemma PersistReloadRoundTrip(ix: Index, q: bool)
    requires Valid(ix)
    ensures var re := InsertRecords(Empty, AllRecords(ix), q).index;
      && Valid(re)
      && re.keys == ix.keys
      && re.ht.Keys == ix.ht.Keys
      && (forall k :: k in ix.ht ==> multiset(re.ht[k]) == multiset(ix.ht[k]))
      && (forall k :: Probe(re, k).count == Probe(ix, k).count)
  {
    ReloadAll(ix, q);
    InsertRecordsKeepValid(Empty, AllRecords(ix), q);
    ReloadedEntries(ix, q);
  }

  /** Each reloaded key holds the same entries, up to order. */
  lemma ReloadedEntries(ix: Index, q: bool)
    requires Valid(ix)
    ensures forall k :: k in ix.ht ==>
      multiset(Reloaded(ix, q).ht[k]) == multiset(ix.ht[k]) && |Reloaded(ix, q).ht[k]| == |ix.ht[k]|
  {
    forall k | k in ix.ht
      ensures multiset(Reloaded(ix, q).ht[k]) == multiset(ix.ht[k]) && |Reloaded(ix, q).ht[k]| == |ix.ht[k]|
    {
      MergeAllReloads(ix.ht[k], q);
    }
  }

  /** When every key has a single entry (an index built from records with
      pairwise distinct keys), the reloaded index is identical. */
  lemma ReloadSingleEntriesIdentical(ix: Index, q: bool)
    requires Valid(ix)
    requires forall k :: k in ix.ht ==> |ix.ht[k]| == 1
    ensures InsertRecords(Empty, AllRecords(ix), q).index == ix
  {
    ReloadAll(ix, q);
    var re := Reloaded(ix, q);
    forall k | k in ix.ht ensures re.ht[k] == ix.ht[k] {
      var es := ix.ht[k];
      assert es[..0] == [];
      assert MergeAll(es, q) == Merge([], es[0], q).entries;
      assert es == [es[0]];
    }
    assert re.ht == ix.ht;
  }

  /** Under the Standard rule, when every first entry was a (depth, score)
      maximum, every reloaded first entry has the same depth and score; with
      ties it may be a different move. */
  lemma ReloadKeepsStandardBestRank(ix: Index)
    requires Valid(ix) && StandardBest(ix)
    ensures var re := InsertRecords(Empty, AllRecords(ix), false).index;
      && re.ht.Keys == ix.ht.Keys
      && forall k :: k in ix.ht ==>
           |re.ht[k]| > 0 && re.ht[k][0].depth == ix.ht[k][0].depth && re.ht[k][0].score == ix.ht[k][0].score
  {
    ReloadAll(ix, false);
    var re := Reloaded(ix, false);
    forall k | k in ix.ht
      ensures |re.ht[k]| > 0 && re.ht[k][0].depth == ix.ht[k][0].depth && re.ht[k][0].score == ix.ht[k][0].score
    {
      StandardReloadKeepsBestRank(ix.ht[k]);
    }
  }

  /** Under the Self mode the first slot need not hold the best score (see
      `SelfModeFirstSlotCanLoseScoreLead`), and then a persist followed by a
      reload changes the move `probe` reports for the key: the reload merges
      the entries afresh and promotes the higher score. */
  lemma SelfReloadCanChangeFirstMove()
    ensures var ix := Index(map[7 := [LearningMove(1, 6, 10), LearningMove(2, 1, 90)]], [7]);
      var re := InsertRecords(Empty, AllRecords(ix), true).index;
      && Valid(ix) && Valid(re)
      && Probe(ix, 7).best == Some(LearningMove(1, 6, 10))
      && Probe(re, 7).best == Some(LearningMove(2, 1, 90))
  {
    var es := [LearningMove(1, 6, 10), LearningMove(2, 1, 90)];
    var ix := Index(map[7 := es], [7]);
    ReloadAll(ix, true);
    InsertRecordsKeepValid(Empty, AllRecords(ix), true);
    SelfRemergeSwaps();
  }

  /** The two entries of the example above, merged afresh under the Self
      mode: the second has the higher score and is promoted. */
  lemma SelfRemergeSwaps()
    ensures MergeAll([LearningMove(1, 6, 10), LearningMove(2, 1, 90)], true)
            == [LearningMove(2, 1, 90), LearningMove(1, 6, 10)]
  {
    var a, b := LearningMove(1, 6, 10), LearningMove(2, 1, 90);
    assert [a, b][..1] == [a];
    assert MergeAll([a], true) == [a];
    assert IndexOfMove([a], 2) == 1;
    assert Swap([a, b], 0, 1) == [b, a];
  }

}
