/** The merge policy of `LearningData::insert_or_update` for the entries
    stored under ONE position key, as a function on the entry list. The first
    element of the list is the slot the store reads as the best move. */
module MergePolicy {
  import opened LearnTypes

  /** The update rule: an incoming learning move replaces a stored one for
      the same move when it is deeper, or equally deep and strictly better. */
  predicate Improves(existing: LearningMove, incoming: LearningMove)
  {
    existing.depth < incoming.depth
    || (existing.depth == incoming.depth && existing.score < incoming.score)
  }

  /** The promotion rule. Self mode looks at the score alone; Standard mode
      looks at the depth first and lets the candidate win a full tie. */
  predicate Promotes(qLearning: bool, candidate: LearningMove, best: LearningMove)
  {
    if qLearning then candidate.score > best.score
    else best.depth < candidate.depth
         || (best.depth == candidate.depth && best.score <= candidate.score)
  }

  /** `a` is at least `b` in the lexicographic order on (depth, score). */
  predicate AtLeast(a: LearningMove, b: LearningMove)
  {
    a.depth > b.depth || (a.depth == b.depth && a.score >= b.score)
  }

  /** The first slot is a lexicographic maximum of (depth, score). */
  ghost predicate StandardBestFirst(s: seq<LearningMove>)
  {
    forall j :: 0 <= j < |s| ==> AtLeast(s[0], s[j])
  }

  /** The first slot carries a maximal score. */
  ghost predicate ScoreBestFirst(s: seq<LearningMove>)
  {
    forall j :: 0 <= j < |s| ==> s[0].score >= s[j].score
  }

  /** No move occurs twice under one key. */
  ghost predicate DistinctMoves(s: seq<LearningMove>)
  {
    forall i, j :: 0 <= i < j < |s| ==> s[i].move != s[j].move
  }

  ghost function Moves(s: seq<LearningMove>): set<int>
  {
    set e | e in s :: e.move
  }

  /** The `find_if` scan: the position of the first entry for move `m`, or
      `|s|` when there is none. */
  function IndexOfMove(s: seq<LearningMove>, m: int): (i: nat)
    ensures i <= |s|
    ensures i < |s| ==> s[i].move == m
    ensures forall j :: 0 <= j < i ==> s[j].move != m
    decreases |s|
  {
    if |s| == 0 then 0
    else if s[0].move == m then 0
    else 1 + IndexOfMove(s[1..], m)
  }

  /** Exchange the contents of two slots. */
  function Swap(s: seq<LearningMove>, i: nat, j: nat): (r: seq<LearningMove>)
    requires i < |s| && j < |s|
    ensures |r| == |s| && r[i] == s[j] && r[j] == s[i]
    ensures forall k :: 0 <= k < |s| && k != i && k != j ==> r[k] == s[k]
  {
    s[i := s[j]][j := s[i]]
  }

  /** An exchange keeps the same entries. */
  lemma SwapPermutes(s: seq<LearningMove>, i: nat, j: nat)
    requires i < |s| && j < |s|
    ensures multiset(Swap(s, i, j)) == multiset(s)
  {
  }

  /** The promotion step for the candidate in slot `c`: when `c` is not the
      first slot and the rule promotes it over the first slot, the two slots
      exchange their contents. */
  function Promote(s: seq<LearningMove>, c: nat, qLearning: bool): seq<LearningMove>
    requires c < |s|
  {
    if c != 0 && Promotes(qLearning, s[c], s[0]) then Swap(s, 0, c) else s
  }

  /** The entries after a merge, and whether the merge changed anything
      (the cases where the source sets `needPersisting`). */
  datatype Merged = Merged(entries: seq<LearningMove>, changed: bool)

  /** `insert_or_update` on the entries of one key. A new key gets the
      incoming move as its only entry; an unknown move is appended and may be
      promoted; a known move is overwritten when the update rule allows it
      and may then be promoted; otherwise nothing changes. */
  function Merge(s: seq<LearningMove>, lm: LearningMove, qLearning: bool): (r: Merged)
    ensures |r.entries| > 0
  {
    if |s| == 0 then Merged([lm], true)
    else
      var i := IndexOfMove(s, lm.move);
      if i == |s| then Merged(Promote(s + [lm], i, qLearning), true)
      else if Improves(s[i], lm) then Merged(Promote(s[i := lm], i, qLearning), true)
      else Merged(s, false)
  }

  /** With moves pairwise distinct, the number of entries under a key is
      the number of distinct moves known for it. */
  lemma {:induction false} DistinctMovesCount(s: seq<LearningMove>)
    requires DistinctMoves(s)
    ensures |Moves(s)| == |s|
  {
    if |s| > 0 {
      var t, last := s[..|s| - 1], s[|s| - 1];
      assert DistinctMoves(t);
      DistinctMovesCount(t);
      MovesSnoc(s);
    }
  }

  /** The moves of a non-empty list whose moves are distinct: those of all
      but the last entry, plus the last entry's move, which is new. */
  lemma MovesSnoc(s: seq<LearningMove>)
    requires |s| > 0 && DistinctMoves(s)
    ensures Moves(s) == Moves(s[..|s| - 1]) + {s[|s| - 1].move}
    ensures s[|s| - 1].move !in Moves(s[..|s| - 1])
  {
    var t, last := s[..|s| - 1], s[|s| - 1];
    assert s == t + [last];
    forall x | x in t ensures x.move != last.move {
      var p :| 0 <= p < |t| && t[p] == x;
      assert s[p] == x;
    }
  }

  // ---------------------------------------------------------------------
  // Properties of one merge

  lemma MovesOfSwap(s: seq<LearningMove>, i: nat, j: nat)
    requires i < |s| && j < |s|
    ensures Moves(Swap(s, i, j)) == Moves(s)
  {
    var r := Swap(s, i, j);
    assert forall e :: e in r <==> e in s by {
      SwapPermutes(s, i, j);
      forall e ensures e in r <==> e in s {
        assert e in r <==> e in multiset(r);
        assert e in s <==> e in multiset(s);
      }
    }
  }

  /** An incoming move that is not yet stored under the key is added as one
      more entry: nothing is removed, the count grows by one, the index
      reports a change, and under a new key it becomes the only entry. */
  lemma MergeAddsUnknownMove(s: seq<LearningMove>, lm: LearningMove, q: bool)
    requires lm.move !in Moves(s)
    ensures var r := Merge(s, lm, q);
      && r.changed
      && |r.entries| == |s| + 1
      && multiset(r.entries) == multiset(s) + multiset{lm}
      && Moves(r.entries) == Moves(s) + {lm.move}
      && (s == [] ==> r.entries == [lm])
  {
    if |s| > 0 {
      var i := IndexOfMove(s, lm.move);
      assert i == |s|;
      var t := s + [lm];
      assert multiset(t) == multiset(s) + multiset{lm};
      assert Moves(t) == Moves(s) + {lm.move};
      if i != 0 && Promotes(q, t[i], t[0]) {
        MovesOfSwap(t, 0, i);
        SwapPermutes(t, 0, i);
      }
    }
  }

  /** Overwriting an entry with one for the same move keeps the moves. */
  lemma MovesOfOverwrite(s: seq<LearningMove>, i: nat, lm: LearningMove)
    requires i < |s| && s[i].move == lm.move
    ensures Moves(s[i := lm]) == Moves(s)
  {
    var t := s[i := lm];
    forall m ensures m in Moves(t) <==> m in Moves(s) {
      if m in Moves(t) {
        var x :| x in t && x.move == m;
        var p :| 0 <= p < |t| && t[p] == x;
        assert s[p] in s;
      }
      if m in Moves(s) {
        var x :| x in s && x.move == m;
        var p :| 0 <= p < |s| && s[p] == x;
        assert t[p] in t;
      }
    }
  }

  /** An incoming move that is already stored under the key overwrites the
      stored entry exactly when the update rule allows it; otherwise the
      entries and the change flag are left alone. The set of moves never
      changes and no entry count changes. */
  lemma MergeKnownMove(s: seq<LearningMove>, lm: LearningMove, q: bool)
    requires lm.move in Moves(s)
    ensures var i := IndexOfMove(s, lm.move);
      var r := Merge(s, lm, q);
      && i < |s|
      && r.changed == Improves(s[i], lm)
      && (!r.changed ==> r.entries == s)
      && (r.changed ==> multiset(r.entries) == multiset(s) - multiset{s[i]} + multiset{lm})
      && |r.entries| == |s|
      && Moves(r.entries) == Moves(s)
  {
    var i := IndexOfMove(s, lm.move);
    var e :| e in s && e.move == lm.move;
    var k :| 0 <= k < |s| && s[k] == e;
    assert i <= k;
    if Improves(s[i], lm) {
      var t := s[i := lm];
      assert multiset(t) == multiset(s) - multiset{s[i]} + multiset{lm};
      MovesOfOverwrite(s, i, lm);
      if i != 0 && Promotes(q, t[i], t[0]) {
        MovesOfSwap(t, 0, i);
        SwapPermutes(t, 0, i);
      }
    }
  }

  /** The promotion decision. The candidate is the appended entry (unknown
      move) or the overwritten slot (known move, update rule satisfied). When
      the candidate is not already in the first slot it moves there exactly
      when the mode's rule promotes it over the current first entry, and the
      displaced first entry takes the candidate's slot; a candidate already in
      the first slot stays there. */
  lemma MergePromotion(s: seq<LearningMove>, lm: LearningMove, q: bool)
    requires |s| > 0
    ensures var i := IndexOfMove(s, lm.move);
      var r := Merge(s, lm, q).entries;
      && (i == |s| ==>
            && (r[0] == lm <==> Promotes(q, lm, s[0]))
            && (Promotes(q, lm, s[0]) ==> r[i] == s[0])
            && (Promotes(q, lm, s[0]) ==> forall k :: 0 < k < i ==> r[k] == s[k])
            && (!Promotes(q, lm, s[0]) ==> r == s + [lm]))
      && (0 < i < |s| && Improves(s[i], lm) ==>
            && (r[0] == lm <==> Promotes(q, lm, s[0]))
            && (Promotes(q, lm, s[0]) ==> r[i] == s[0])
            && (Promotes(q, lm, s[0]) ==> forall k :: 0 < k < |s| && k != i ==> r[k] == s[k])
            && (!Promotes(q, lm, s[0]) ==> r == s[i := lm]))
      && (i == 0 && Improves(s[0], lm) ==> r == s[0 := lm])
  {
  }

  /** Merging never puts a second entry for the same move under a key. */
  lemma MergeKeepsMovesDistinct(s: seq<LearningMove>, lm: LearningMove, q: bool)
    requires DistinctMoves(s)
    ensures DistinctMoves(Merge(s, lm, q).entries)
  {
    var i := IndexOfMove(s, lm.move);
    if |s| > 0 && i == |s| {
      var t := s + [lm];
      assert DistinctMoves(t);
      if Promotes(q, t[i], t[0]) {
        var r := Swap(t, 0, i);
        forall a, b | 0 <= a < b < |r| ensures r[a].move != r[b].move {
          var a' := if a == 0 then i else if a == i then 0 else a;
          var b' := if b == 0 then i else if b == i then 0 else b;
          assert r[a] == t[a'] && r[b] == t[b'];
        }
      }
    } else if |s| > 0 && Improves(s[i], lm) {
      var t := s[i := lm];
      assert DistinctMoves(t);
      if i != 0 && Promotes(q, t[i], t[0]) {
        var r := Swap(t, 0, i);
        forall a, b | 0 <= a < b < |r| ensures r[a].move != r[b].move {
          var a' := if a == 0 then i else if a == i then 0 else a;
          var b' := if b == 0 then i else if b == i then 0 else b;
          assert r[a] == t[a'] && r[b] == t[b'];
        }
      }
    }
  }

  /** Under the Standard rule the first slot stays a lexicographic maximum of
      (depth, score): the update rule only raises an entry, and the `<=` in
      the promotion rule moves any candidate that reaches the first entry. */
  lemma MergeKeepsStandardBestFirst(s: seq<LearningMove>, lm: LearningMove)
    requires StandardBestFirst(s)
    ensures StandardBestFirst(Merge(s, lm, false).entries)
  {
    var i := IndexOfMove(s, lm.move);
    if |s| > 0 && i == |s| {
      var t := s + [lm];
      if Promotes(false, t[i], t[0]) {
        var r := Swap(t, 0, i);
        forall j | 0 <= j < |r| ensures AtLeast(r[0], r[j]) {
          if j != 0 && j != i { assert r[j] == s[j]; }
        }
      } else {
        forall j | 0 <= j < |t| ensures AtLeast(t[0], t[j]) {
          if j < |s| { assert t[j] == s[j]; }
        }
      }
    } else if |s| > 0 && Improves(s[i], lm) {
      var t := s[i := lm];
      if i != 0 && Promotes(false, t[i], t[0]) {
        var r := Swap(t, 0, i);
        forall j | 0 <= j < |r| ensures AtLeast(r[0], r[j]) {
          if j != 0 && j != i { assert r[j] == s[j]; }
        }
      } else {
        forall j | 0 <= j < |t| ensures AtLeast(t[0], t[j]) {
          if j != i { assert t[j] == s[j]; }
        }
      }
    }
  }

  /** Self mode keeps no such maximum: overwriting the first slot in place
      (a deeper result for the move stored there) is never followed by a
      promotion, so the first slot can end up with a lower score than
      another entry. */
  lemma SelfModeFirstSlotCanLoseScoreLead()
    ensures var s := [LearningMove(1, 5, 100), LearningMove(2, 1, 90)];
      var r := Merge(s, LearningMove(1, 6, 10), true);
      && ScoreBestFirst(s) && DistinctMoves(s)
      && r.changed
      && !ScoreBestFirst(r.entries)
  {
    var s := [LearningMove(1, 5, 100), LearningMove(2, 1, 90)];
    assert IndexOfMove(s, 1) == 0;
    var r := Merge(s, LearningMove(1, 6, 10), true);
    assert r.entries == [LearningMove(1, 6, 10), LearningMove(2, 1, 90)];
    assert r.entries[0].score < r.entries[1].score;
  }

  // ---------------------------------------------------------------------
  // Scenarios: the Standard and Self promotion rules on small inputs

  /** Standard mode: a deeper result for another move wins despite a much
      lower score. */
  lemma StandardDepthDominates()
    ensures Merge([LearningMove(1, 5, 100)], LearningMove(2, 8, 1), false).entries
            == [LearningMove(2, 8, 1), LearningMove(1, 5, 100)]
  {
    assert IndexOfMove([LearningMove(1, 5, 100)], 2) == 1;
  }

  /** Standard mode: a full tie in depth and score goes to the newcomer. */
  lemma StandardTieGoesToNewcomer()
    ensures Merge([LearningMove(1, 5, 10)], LearningMove(2, 5, 10), false).entries
            == [LearningMove(2, 5, 10), LearningMove(1, 5, 10)]
  {
    assert IndexOfMove([LearningMove(1, 5, 10)], 2) == 1;
  }

  /** Self mode: a higher score keeps the first slot against a far deeper
      result. */
  lemma SelfScoreDominates()
    ensures Merge([LearningMove(1, 1, 100)], LearningMove(2, 20, 50), true).entries
            == [LearningMove(1, 1, 100), LearningMove(2, 20, 50)]
  {
    assert IndexOfMove([LearningMove(1, 1, 100)], 2) == 1;
  }
}
