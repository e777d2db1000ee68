/**
 * The mining run of algorithm/algorithm.go as functions: seeding level 1
 * (Run, lines 120-145), one pass of candidate generation over a level
 * (nextLevelLargeItemsets, lines 147-190) and the recursion from level to
 * level. The loops are written as tail-recursive functions over the loop
 * position, so that the methods of the Apriori class state their loop
 * invariants as "the rest of the loop from here gives what the whole loop
 * gives".
 */
module Mining {
  import opened Keys
  import opened Itemsets
  import opened TransactionIndex
  import opened Candidates

  /** The candidate and count maps, keyed by ItemsetsToString. */
  type Counts = map<string, int>

  /** A map read the way Go reads it: a missing key gives 0. */
  function Get(m: Counts, key: string): int
  {
    if key in m then m[key] else 0
  }

  /** The state of nextLevelLargeItemsets: candidateItemsets, newLargeItemsets, frequentItemsetCount, numFrequentItemsets. */
  datatype Pass = Pass(cand: Counts, out: Level, counts: Counts, num: int)

  /** Every itemset of l is non-empty and has all its items in the index, so itemsetCount can count it. */
  predicate LevelCovered(rt: Index, l: Level)
  {
    forall x :: 0 <= x < |l| ==> |l[x]| >= 1 && Covered(rt, l[x])
  }

  /** What nextLevelLargeItemsets is called with: a non-empty level of k-itemsets, k >= 1, all counted from the index. */
  predicate Ready(rt: Index, l: Level)
  {
    |l| >= 1 && |l[0]| >= 1 && IsLevel(l, |l[0]|) && LevelCovered(rt, l)
  }

  /** A candidate that itemsetCount finds in at least minsupCount transactions. */
  predicate Frequent(rt: Index, minsupCount: int, c: seq<int>)
  {
    |c| >= 1 && Covered(rt, c) && SupportByIntersection(rt, c) >= minsupCount
  }

  lemma MergedCovered(rt: Index, one: seq<int>, two: seq<int>)
    requires |one| == |two| >= 1 && Covered(rt, one) && Covered(rt, two)
    ensures Covered(rt, Merged(one, two))
  {
    var c := Merged(one, two);
    assert forall x :: 0 <= x < |one| ==> c[x] == one[x];
  }

  /** The two maps, read as Go reads them, agree on every key but one. */
  ghost predicate AgreeOff(m: Counts, m': Counts, key: string)
  {
    forall k :: k != key ==> Get(m, k) == Get(m', k)
  }

  /**
   * The body of the inner loop of nextLevelLargeItemsets for the pair (l[i], l[j])
   * (lines 157-178). The new level grows by at most one itemset, and
   * numFrequentItemsets grows with it; StepShape says which itemset.
   */
  function Step(rt: Index, minsupCount: int, l: Level, i: int, j: int, st: Pass): (r: Pass)
    requires Ready(rt, l) && 0 <= i < j < |l|
    ensures |st.out| <= |r.out| <= |st.out| + 1
    ensures r.num - st.num == |r.out| - |st.out|
  {
    LevelDistinct(l, |l[0]|, i, j);
    if !MergeOk(l[i], l[j]) then st
    else
      var c := Merged(l[i], l[j]);
      var key := ItemsetsToString(c);
      var count := Get(st.cand, key) + 1;
      if count == |l[i]| then
        MergedCovered(rt, l[i], l[j]);
        var freq := SupportByIntersection(rt, c);
        if freq >= minsupCount then
          st.(out := st.out + [c], counts := st.counts[key := freq], num := st.num + 1)
        else st
      else st.(cand := st.cand[key := count])
  }

  /** The pass from pair (i, j) on: the inner loop over j, then the next row (lines 152-182). */
  function PassFrom(rt: Index, minsupCount: int, l: Level, i: int, j: int, st: Pass): Pass
    requires Ready(rt, l) && 0 <= i < |l| && i < j <= |l|
    decreases |l| - i, |l| - j
  {
    if i + 1 >= |l| then st
    else if j == |l| then PassFrom(rt, minsupCount, l, i + 1, i + 2, st)
    else PassFrom(rt, minsupCount, l, i, j + 1, Step(rt, minsupCount, l, i, j, st))
  }

  /** The inner loop of the pass: the pairs (i, j), (i, j + 1), ..., (i, |l| - 1). */
  function RowFrom(rt: Index, minsupCount: int, l: Level, i: int, j: int, st: Pass): Pass
    requires Ready(rt, l) && 0 <= i < j <= |l|
    decreases |l| - j
  {
    if j == |l| then st else RowFrom(rt, minsupCount, l, i, j + 1, Step(rt, minsupCount, l, i, j, st))
  }

  /** The pass is row i followed by the rows after it. */
  lemma {:induction false} PassFromRow(rt: Index, minsupCount: int, l: Level, i: int, j: int, st: Pass)
    requires Ready(rt, l) && 0 <= i && i + 1 < |l| && i < j <= |l|
    ensures PassFrom(rt, minsupCount, l, i, j, st) == PassFrom(rt, minsupCount, l, i + 1, i + 2, RowFrom(rt, minsupCount, l, i, j, st))
    decreases |l| - j
  {
    if j < |l| {
      var st' := Step(rt, minsupCount, l, i, j, st);
      assert PassFrom(rt, minsupCount, l, i, j, st) == PassFrom(rt, minsupCount, l, i, j + 1, st');
      assert RowFrom(rt, minsupCount, l, i, j, st) == RowFrom(rt, minsupCount, l, i, j + 1, st');
      PassFromRow(rt, minsupCount, l, i, j + 1, st');
    }
  }

  /** After the last pair of row i the pass goes on with row i + 1; after the last row it is done. */
  lemma PassFromRowEnd(rt: Index, minsupCount: int, l: Level, i: int, st: Pass)
    requires Ready(rt, l) && 0 <= i < |l|
    ensures i + 1 < |l| ==> PassFrom(rt, minsupCount, l, i, |l|, st) == PassFrom(rt, minsupCount, l, i + 1, i + 2, st)
    ensures i + 1 >= |l| ==> PassFrom(rt, minsupCount, l, i, i + 1, st) == st
  {
  }

  /**
   * One pair appends nothing, or appends the merged candidate when the pair
   * merges and the candidate is frequent; the candidate and count maps change
   * only at the merged candidate's key.
   */
  lemma StepShape(rt: Index, minsupCount: int, l: Level, i: int, j: int, st: Pass)
    requires Ready(rt, l) && 0 <= i < j < |l|
    ensures var r := Step(rt, minsupCount, l, i, j, st);
      && (r.out == st.out
          || (l[i] != l[j] && MergeOk(l[i], l[j]) && Frequent(rt, minsupCount, Merged(l[i], l[j]))
              && r.out == st.out + [Merged(l[i], l[j])]))
      && AgreeOff(r.cand, st.cand, ItemsetsToString(Merged(l[i], l[j])))
      && AgreeOff(r.counts, st.counts, ItemsetsToString(Merged(l[i], l[j])))
  {
  }

  /** A pair whose merge fails changes nothing. */
  lemma StepUnmerged(rt: Index, minsupCount: int, l: Level, i: int, j: int, st: Pass)
    requires Ready(rt, l) && 0 <= i < j < |l| && l[i] != l[j] && !MergeOk(l[i], l[j])
    ensures Step(rt, minsupCount, l, i, j, st) == st
  {
  }

  /** A merged candidate short of its k-th production has its count raised. */
  lemma StepCounted(rt: Index, minsupCount: int, l: Level, i: int, j: int, st: Pass, key: string)
    requires Ready(rt, l) && 0 <= i < j < |l| && l[i] != l[j] && MergeOk(l[i], l[j])
    requires key == ItemsetsToString(Merged(l[i], l[j])) && Get(st.cand, key) + 1 != |l[i]|
    ensures Step(rt, minsupCount, l, i, j, st) == st.(cand := st.cand[key := Get(st.cand, key) + 1])
  {
    LevelDistinct(l, |l[0]|, i, j);
  }

  /** At its k-th production a merged candidate is counted, and kept when frequent. */
  lemma StepChecked(rt: Index, minsupCount: int, l: Level, i: int, j: int, st: Pass, key: string)
    requires Ready(rt, l) && 0 <= i < j < |l| && l[i] != l[j] && MergeOk(l[i], l[j])
    requires key == ItemsetsToString(Merged(l[i], l[j])) && Get(st.cand, key) + 1 == |l[i]|
    ensures Covered(rt, Merged(l[i], l[j])) && |Merged(l[i], l[j])| >= 1
    ensures var c := Merged(l[i], l[j]);
      var freq := SupportByIntersection(rt, c);
      Step(rt, minsupCount, l, i, j, st) ==
        if freq >= minsupCount then st.(out := st.out + [c], counts := st.counts[key := freq], num := st.num + 1) else st
  {
    LevelDistinct(l, |l[0]|, i, j);
    MergedCovered(rt, l[i], l[j]);
  }

  /** One whole pass over level l, starting from an empty candidate map and an empty new level. */
  function NextLevel(rt: Index, minsupCount: int, l: Level, counts: Counts, num: int): Pass
    requires Ready(rt, l)
  {
    PassFrom(rt, minsupCount, l, 0, 1, Pass(map[], [], counts, num))
  }

  /** The count map after recording the support of every itemset of out, in order. */
  function Record(rt: Index, m: Counts, out: Level): Counts
    requires LevelCovered(rt, out)
  {
    if |out| == 0 then m
    else
      var c := out[|out| - 1];
      Record(rt, m, out[..|out| - 1])[ItemsetsToString(c) := SupportByIntersection(rt, c)]
  }

  /** The value the candidate map holds for a candidate produced s times out of k. */
  function Cap(s: nat, k: nat): int
  {
    if s < k then s else k - 1
  }

  /**
   * The pass invariant at position (i, j), for all candidates c:
   * the candidate map holds how often c has been produced (its k-th production
   * is not stored); the new level holds the candidates produced k times that
   * are frequent, as a sorted level; the count map is the old one with their
   * supports recorded; and the counter has grown by their number.
   */
  ghost predicate PassInv(rt: Index, minsupCount: int, l: Level, i: nat, j: int, counts0: Counts, num0: int, st: Pass)
    requires Ready(rt, l)
  {
    var k := |l[0]|;
    && CandInv(l, k, i, j, st.cand)
    && OutInv(rt, minsupCount, l, k, i, j, st.out)
    && IsLevel(st.out, k + 1) && LevelCovered(rt, st.out)
    && st.counts == Record(rt, counts0, st.out)
    && st.num == num0 + |st.out|
  }

  /** The candidate map holds how often each candidate has been produced before pair (i, j), short of k. */
  ghost predicate CandInv(l: Level, k: nat, i: nat, j: int, cand: Counts)
  {
    forall c {:trigger ItemsetsToString(c)} :: Get(cand, ItemsetsToString(c)) == Cap(Seen(l, i, j, c), k)
  }

  /** The new level holds the frequent candidates produced k times before pair (i, j). */
  ghost predicate OutInv(rt: Index, minsupCount: int, l: Level, k: nat, i: nat, j: int, out: Level)
  {
    forall c {:trigger c in out} :: c in out <==> Seen(l, i, j, c) == k && Frequent(rt, minsupCount, c)
  }

  /** Before the first pair nothing has been produced. */
  lemma PassInit(rt: Index, minsupCount: int, l: Level, counts0: Counts, num0: int)
    requires Ready(rt, l)
    ensures PassInv(rt, minsupCount, l, 0, 1, counts0, num0, Pass(map[], [], counts0, num0))
  {
  }

  /** Moving from the end of row i to the first pair of row i + 1 changes nothing that has been seen. */
  lemma PassRow(rt: Index, minsupCount: int, l: Level, i: nat, counts0: Counts, num0: int, st: Pass)
    requires Ready(rt, l) && i + 1 < |l|
    requires PassInv(rt, minsupCount, l, i, |l|, counts0, num0, st)
    ensures PassInv(rt, minsupCount, l, i + 1, i + 2, counts0, num0, st)
  {
    forall c ensures Seen(l, i + 1, i + 2, c) == Seen(l, i, |l|, c) {
    }
  }

  /** One step of the inner loop keeps the pass invariant. */
  lemma PassStep(rt: Index, minsupCount: int, l: Level, i: nat, j: int, counts0: Counts, num0: int, st: Pass)
    requires Ready(rt, l) && i < j < |l|
    requires PassInv(rt, minsupCount, l, i, j, counts0, num0, st)
    ensures PassInv(rt, minsupCount, l, i, j + 1, counts0, num0, Step(rt, minsupCount, l, i, j, st))
  {
    var k := |l[0]|;
    LevelDistinct(l, k, i, j);
    if MergeOk(l[i], l[j]) {
      var c0 := Merged(l[i], l[j]);
      SeenStep(l, k, i, j, c0);
      MergedCovered(rt, l[i], l[j]);
      var key := ItemsetsToString(c0);
      assert Get(st.cand, key) + 1 == Seen(l, i, j + 1, c0);
      if Seen(l, i, j + 1, c0) < k {
        StepCount(rt, minsupCount, l, i, j, counts0, num0, st, c0);
      } else if Frequent(rt, minsupCount, c0) {
        StepAdmit(rt, minsupCount, l, i, j, counts0, num0, st, c0);
      } else {
        StepDrop(rt, minsupCount, l, i, j, counts0, num0, st, c0);
      }
    } else {
      forall c ensures Seen(l, i, j + 1, c) == Seen(l, i, j, c) {
      }
    }
  }

  /** A pair that merges into c0 adds one production of c0 and of nothing else; c0 had fewer than k. */
  lemma SeenStep(l: Level, k: nat, i: nat, j: int, c0: seq<int>)
    requires IsLevel(l, k) && i < j < |l| && |l[i]| >= 1 && l[i] != l[j]
    requires MergeOk(l[i], l[j]) && c0 == Merged(l[i], l[j])
    ensures forall c :: Seen(l, i, j + 1, c) == Seen(l, i, j, c) + (if c == c0 then 1 else 0)
    ensures Produces(l, i, j, c0) && Seen(l, i, j + 1, c0) <= k
  {
    assert Produces(l, i, j, c0);
    SeenBound(l, k, i, j + 1, c0);
  }

  /** Only c0 has the key of c0. */
  lemma KeyOf(c0: seq<int>)
    ensures forall c :: ItemsetsToString(c) == ItemsetsToString(c0) <==> c == c0
  {
    forall c | ItemsetsToString(c) == ItemsetsToString(c0) ensures c == c0 {
      ItemsetsToStringInjective(c, c0);
    }
  }

  /** A production short of k is stored in the candidate map (line 174). */
  lemma StepCount(rt: Index, minsupCount: int, l: Level, i: nat, j: int, counts0: Counts, num0: int, st: Pass, c0: seq<int>)
    requires Ready(rt, l) && i < j < |l|
    requires PassInv(rt, minsupCount, l, i, j, counts0, num0, st)
    requires forall c :: Seen(l, i, j + 1, c) == Seen(l, i, j, c) + (if c == c0 then 1 else 0)
    requires Seen(l, i, j + 1, c0) < |l[0]|
    ensures PassInv(rt, minsupCount, l, i, j + 1, counts0, num0,
      st.(cand := st.cand[ItemsetsToString(c0) := Seen(l, i, j + 1, c0)]))
  {
    KeyOf(c0);
  }

  /** The k-th production of an infrequent candidate leaves the state as it is (lines 165-168). */
  lemma StepDrop(rt: Index, minsupCount: int, l: Level, i: nat, j: int, counts0: Counts, num0: int, st: Pass, c0: seq<int>)
    requires Ready(rt, l) && i < j < |l|
    requires PassInv(rt, minsupCount, l, i, j, counts0, num0, st)
    requires forall c :: Seen(l, i, j + 1, c) == Seen(l, i, j, c) + (if c == c0 then 1 else 0)
    requires Seen(l, i, j + 1, c0) == |l[0]| && !Frequent(rt, minsupCount, c0)
    ensures PassInv(rt, minsupCount, l, i, j + 1, counts0, num0, st)
  {
  }

  /** The k-th production of a frequent candidate appends it to the new level and records its support (lines 165-172). */
  lemma StepAdmit(rt: Index, minsupCount: int, l: Level, i: nat, j: int, counts0: Counts, num0: int, st: Pass, c0: seq<int>)
    requires Ready(rt, l) && i < j < |l|
    requires PassInv(rt, minsupCount, l, i, j, counts0, num0, st)
    requires forall c :: Seen(l, i, j + 1, c) == Seen(l, i, j, c) + (if c == c0 then 1 else 0)
    requires Produces(l, i, j, c0) && Seen(l, i, j + 1, c0) == |l[0]| && Frequent(rt, minsupCount, c0)
    ensures PassInv(rt, minsupCount, l, i, j + 1, counts0, num0,
      st.(out := st.out + [c0], counts := st.counts[ItemsetsToString(c0) := SupportByIntersection(rt, c0)], num := st.num + 1))
  {
    var k := |l[0]|;
    CompleteCand(l, k, i, j, st.cand, c0);
    CompleteOut(rt, minsupCount, l, k, i, j, st.out, c0);
    AppendRecorded(rt, l, k, i, j, counts0, st.out, st.counts, c0);
  }

  /** The appended level stays sorted and its record gains the new support. */
  lemma AppendRecorded(rt: Index, l: Level, k: nat, i: nat, j: int, counts0: Counts, out: Level, counts: Counts, c0: seq<int>)
    requires IsLevel(l, k) && Produces(l, i, j, c0) && Seen(l, i, j, c0) == k - 1
    requires IsLevel(out, k + 1) && LevelCovered(rt, out) && counts == Record(rt, counts0, out)
    requires forall c :: c in out ==> Seen(l, i, j, c) == k
    requires |c0| >= 1 && Covered(rt, c0)
    ensures IsLevel(out + [c0], k + 1) && LevelCovered(rt, out + [c0])
    ensures counts[ItemsetsToString(c0) := SupportByIntersection(rt, c0)] == Record(rt, counts0, out + [c0])
  {
    if |out| > 0 {
      assert out[|out| - 1] in out;
    }
    AppendCompleted(l, k, i, j, out, c0);
    RecordSnoc(rt, counts0, out, c0);
  }

  /** The k-th production is not stored: the candidate map already holds k - 1 for it. */
  lemma CompleteCand(l: Level, k: nat, i: nat, j: int, cand: Counts, c0: seq<int>)
    requires CandInv(l, k, i, j, cand)
    requires forall c :: Seen(l, i, j + 1, c) == Seen(l, i, j, c) + (if c == c0 then 1 else 0)
    requires Seen(l, i, j + 1, c0) == k
    ensures CandInv(l, k, i, j + 1, cand)
  {
  }

  /** The completed frequent candidate joins the new level. */
  lemma CompleteOut(rt: Index, minsupCount: int, l: Level, k: nat, i: nat, j: int, out: Level, c0: seq<int>)
    requires OutInv(rt, minsupCount, l, k, i, j, out)
    requires forall c :: Seen(l, i, j + 1, c) == Seen(l, i, j, c) + (if c == c0 then 1 else 0)
    requires Seen(l, i, j + 1, c0) == k && Frequent(rt, minsupCount, c0)
    ensures OutInv(rt, minsupCount, l, k, i, j + 1, out + [c0])
  {
    forall c ensures c in out + [c0] <==> c in out || c == c0 {
    }
  }

  /** Appending the candidate a pair completes keeps the new level sorted. */
  lemma AppendCompleted(l: Level, k: nat, i: nat, j: int, out: Level, c0: seq<int>)
    requires IsLevel(l, k) && Produces(l, i, j, c0) && Seen(l, i, j, c0) == k - 1
    requires IsLevel(out, k + 1) && (|out| > 0 ==> Seen(l, i, j, out[|out| - 1]) == k)
    ensures IsLevel(out + [c0], k + 1)
  {
    ProducesShape(l, k, i, j, c0);
    if |out| > 0 {
      CompletedBefore(l, k, i, j, c0, out[|out| - 1]);
    }
    LexSortedSnoc(out, c0);
  }

  lemma RecordSnoc(rt: Index, m: Counts, out: Level, c: seq<int>)
    requires LevelCovered(rt, out) && |c| >= 1 && Covered(rt, c)
    ensures LevelCovered(rt, out + [c])
    ensures Record(rt, m, out + [c]) == Record(rt, m, out)[ItemsetsToString(c) := SupportByIntersection(rt, c)]
  {
    assert (out + [c])[..|out|] == out;
  }

  /** The invariant holds at the end of the pass. */
  lemma {:induction false} RowFromInv(rt: Index, minsupCount: int, l: Level, i: nat, j: int, counts0: Counts, num0: int, st: Pass, row: Pass)
    requires Ready(rt, l) && i < j <= |l| && row == RowFrom(rt, minsupCount, l, i, j, st)
    requires PassInv(rt, minsupCount, l, i, j, counts0, num0, st)
    ensures PassInv(rt, minsupCount, l, i, |l|, counts0, num0, row)
    decreases |l| - j
  {
    if j < |l| {
      var st' := Step(rt, minsupCount, l, i, j, st);
      PassStep(rt, minsupCount, l, i, j, counts0, num0, st);
      RowFromInv(rt, minsupCount, l, i, j + 1, counts0, num0, st', row);
    } else {
      assert row == st;
    }
  }

  lemma {:induction false} PassFromInv(rt: Index, minsupCount: int, l: Level, i: nat, j: int, counts0: Counts, num0: int, st: Pass, fin: Pass)
    requires Ready(rt, l) && i < |l| && i < j <= |l| && fin == PassFrom(rt, minsupCount, l, i, j, st)
    requires PassInv(rt, minsupCount, l, i, j, counts0, num0, st)
    ensures PassInv(rt, minsupCount, l, |l| - 1, |l|, counts0, num0, fin)
    decreases |l| - i
  {
    if i + 1 < |l| {
      var row := RowFrom(rt, minsupCount, l, i, j, st);
      PassFromRow(rt, minsupCount, l, i, j, st);
      RowFromInv(rt, minsupCount, l, i, j, counts0, num0, st, row);
      PassRow(rt, minsupCount, l, i, counts0, num0, row);
      PassFromInv(rt, minsupCount, l, i + 1, i + 2, counts0, num0, row, fin);
    } else {
      assert fin == st;
    }
  }

  /**
   * A pass over a sorted level of k-itemsets yields, as a sorted level, exactly
   * the frequent (k+1)-itemsets all of whose k-subsets are in the level; it
   * records their supports and counts them.
   */
  lemma NextLevelSpec(rt: Index, minsupCount: int, l: Level, counts: Counts, num: int)
    requires Ready(rt, l)
    ensures forall c :: c in NextLevel(rt, minsupCount, l, counts, num).out <==>
      |c| == |l[0]| + 1 && Ascending(c) && AllSubsetsIn(l, c) && Frequent(rt, minsupCount, c)
    ensures IsLevel(NextLevel(rt, minsupCount, l, counts, num).out, |l[0]| + 1)
    ensures LevelCovered(rt, NextLevel(rt, minsupCount, l, counts, num).out)
    ensures NextLevel(rt, minsupCount, l, counts, num).counts == Record(rt, counts, NextLevel(rt, minsupCount, l, counts, num).out)
    ensures NextLevel(rt, minsupCount, l, counts, num).num == num + |NextLevel(rt, minsupCount, l, counts, num).out|
  {
    PassInit(rt, minsupCount, l, counts, num);
    PassFromInv(rt, minsupCount, l, 0, 1, counts, num, Pass(map[], [], counts, num), NextLevel(rt, minsupCount, l, counts, num));
    forall c ensures Seen(l, |l| - 1, |l|, c) == |l[0]| <==> |c| == |l[0]| + 1 && Ascending(c) && AllSubsetsIn(l, c) {
      SeenAtEnd(l, |l[0]|, c);
    }
  }

  // ---------------------------------------------------------------------
  // From level to level (lines 184-189)

  /** Every item of every itemset of l is an id in 1..maxId. */
  predicate InRange(l: Level, maxId: int)
  {
    forall x, y :: 0 <= x < |l| && 0 <= y < |l[x]| ==> 1 <= l[x][y] <= maxId
  }

  /** An ascending itemset of ids in 1..maxId has at most maxId items. */
  lemma AscendingBound(s: seq<int>, maxId: int)
    requires Ascending(s) && forall y :: 0 <= y < |s| ==> 1 <= s[y] <= maxId
    ensures |s| > 0 ==> |s| <= maxId
  {
    if |s| > 0 {
      AscendingGrows(s, |s| - 1);
      assert 1 <= s[0] && s[|s| - 1] <= maxId;
    }
  }

  lemma {:induction false} AscendingGrows(s: seq<int>, y: nat)
    requires Ascending(s) && y < |s|
    ensures s[y] >= s[0] + y
  {
    if y > 0 {
      AscendingGrows(s, y - 1);
    }
  }

  /** The items of a candidate all of whose subsets are in l are items of l. */
  lemma NextInRange(rt: Index, minsupCount: int, l: Level, counts: Counts, num: int, maxId: int)
    requires Ready(rt, l) && InRange(l, maxId)
    ensures InRange(NextLevel(rt, minsupCount, l, counts, num).out, maxId)
  {
    var out := NextLevel(rt, minsupCount, l, counts, num).out;
    NextLevelSpec(rt, minsupCount, l, counts, num);
    forall x, y | 0 <= x < |out| && 0 <= y < |out[x]| ensures 1 <= out[x][y] <= maxId {
      var c := out[x];
      assert c in out;
      var p := if y == 0 then 1 else 0;
      var r := Remove(c, p);
      assert r in l;
      var t :| 0 <= t < |l| && l[t] == r;
      assert c[y] == r[if y < p then y else y - 1];
    }
  }

  /** The levels found so far, frequentItemsetCount and numFrequentItemsets. */
  datatype Mined = Mined(levels: seq<Level>, counts: Counts, num: int)

  /**
   * nextLevelLargeItemsets on a level that has already been appended: one
   * pass; a non-empty result is appended, and the miner goes on from it when
   * it has at least k + 2 itemsets, the fewest a level of (k+1)-itemsets needs
   * to produce any (k+2)-candidate.
   */
  function MineFrom(rt: Index, minsupCount: int, maxId: int, l: Level, acc: Mined): Mined
    requires Ready(rt, l) && InRange(l, maxId)
    decreases maxId - |l[0]|
  {
    var st := NextLevel(rt, minsupCount, l, acc.counts, acc.num);
    NextLevelSpec(rt, minsupCount, l, acc.counts, acc.num);
    NextInRange(rt, minsupCount, l, acc.counts, acc.num, maxId);
    if |st.out| == 0 then Mined(acc.levels, st.counts, st.num)
    else
      var acc' := Mined(acc.levels + [st.out], st.counts, st.num);
      if |st.out| >= |st.out[0]| + 1 then
        AscendingBound(st.out[0], maxId);
        MineFrom(rt, minsupCount, maxId, st.out, acc')
      else acc'
  }

  /** One unfolding of MineFrom, split by the size of the level the pass finds. */
  lemma MineFromStep(rt: Index, minsupCount: int, maxId: int, l: Level, acc: Mined)
    requires Ready(rt, l) && InRange(l, maxId)
    ensures var st := NextLevel(rt, minsupCount, l, acc.counts, acc.num);
      var acc' := Mined(acc.levels + [st.out], st.counts, st.num);
      && (|st.out| == 0 ==> MineFrom(rt, minsupCount, maxId, l, acc) == Mined(acc.levels, st.counts, st.num))
      && (|st.out| > 0 ==> Ready(rt, st.out) && InRange(st.out, maxId) && |st.out[0]| == |l[0]| + 1)
      && (|st.out| > 0 && |st.out| < |st.out[0]| + 1 ==> MineFrom(rt, minsupCount, maxId, l, acc) == acc')
      && (|st.out| > 0 && |st.out| >= |st.out[0]| + 1 ==>
            MineFrom(rt, minsupCount, maxId, l, acc) == MineFrom(rt, minsupCount, maxId, st.out, acc'))
  {
    NextLevelSpec(rt, minsupCount, l, acc.counts, acc.num);
    NextInRange(rt, minsupCount, l, acc.counts, acc.num, maxId);
  }

  // ---------------------------------------------------------------------
  // Level 1 (lines 129-142)

  /** Every id 1..maxId has a list in the index, as the level-1 loop of Run needs. */
  predicate AllIdsIndexed(rt: Index, maxId: int)
  {
    forall x :: 1 <= x <= maxId ==> x in rt
  }

  /** The level-1 itemsets found so far, frequentItemsetCount and numFrequentItemsets. */
  datatype Seeded = Seeded(large: Level, counts: Counts, num: int)

  /** The level-1 loop of Run from id i on. */
  function SeedFrom(rt: Index, minsupCount: int, maxId: int, i: int, s: Seeded): Seeded
    requires AllIdsIndexed(rt, maxId) && i >= 1
    decreases maxId + 1 - i
  {
    if i > maxId then s
    else if |rt[i]| >= minsupCount then
      SeedFrom(rt, minsupCount, maxId, i + 1, Seeded(s.large + [[i]], s.counts[Itoa(i) := |rt[i]|], s.num + 1))
    else SeedFrom(rt, minsupCount, maxId, i + 1, s)
  }

  /** The body of Run once its guard holds: level 1, then the levels above it. */
  function RunFrom(rt: Index, minsupCount: int, maxId: int): Mined
    requires AllIdsIndexed(rt, maxId)
  {
    var s := SeedFrom(rt, minsupCount, maxId, 1, Seeded([], map[], 0));
    SeedSpec(rt, minsupCount, maxId);
    if |s.large| == 0 then Mined([], s.counts, s.num)
    else MineFrom(rt, minsupCount, maxId, s.large, Mined([s.large], s.counts, s.num))
  }

  /** The level-1 invariant at id i: exactly the ids below i whose list is long enough, in order, counted and recorded. */
  ghost predicate SeedInv(rt: Index, minsupCount: int, maxId: int, i: int, s: Seeded)
    requires AllIdsIndexed(rt, maxId)
  {
    && (forall c {:trigger c in s.large} :: c in s.large <==> |c| == 1 && 1 <= c[0] < i && c[0] <= maxId && |rt[c[0]]| >= minsupCount)
    && IsLevel(s.large, 1) && LevelCovered(rt, s.large) && InRange(s.large, maxId)
    && (forall x :: 0 <= x < |s.large| ==> s.large[x][0] < i)
    && s.counts == Record(rt, map[], s.large)
    && s.num == |s.large|
  }

  lemma {:induction false} SeedFromInv(rt: Index, minsupCount: int, maxId: int, i: int, s: Seeded, fin: Seeded)
    requires AllIdsIndexed(rt, maxId) && 1 <= i <= maxId + 1
    requires SeedInv(rt, minsupCount, maxId, i, s) && fin == SeedFrom(rt, minsupCount, maxId, i, s)
    ensures SeedInv(rt, minsupCount, maxId, maxId + 1, fin)
    decreases maxId + 1 - i
  {
    if i <= maxId {
      if |rt[i]| >= minsupCount {
        var s' := Seeded(s.large + [[i]], s.counts[Itoa(i) := |rt[i]|], s.num + 1);
        SeedAdmit(rt, minsupCount, maxId, i, s);
        SeedFromInv(rt, minsupCount, maxId, i + 1, s', fin);
      } else {
        SeedSkip(rt, minsupCount, maxId, i, s);
        SeedFromInv(rt, minsupCount, maxId, i + 1, s, fin);
      }
    } else {
      assert fin == s;
    }
  }

  /** An id whose list is long enough is appended as [i] (lines 131-136). */
  lemma SeedAdmit(rt: Index, minsupCount: int, maxId: int, i: int, s: Seeded)
    requires AllIdsIndexed(rt, maxId) && 1 <= i <= maxId && |rt[i]| >= minsupCount
    requires SeedInv(rt, minsupCount, maxId, i, s)
    ensures SeedInv(rt, minsupCount, maxId, i + 1, Seeded(s.large + [[i]], s.counts[Itoa(i) := |rt[i]|], s.num + 1))
  {
    SeedMembers(rt, minsupCount, maxId, i, s.large);
    SeedOrder(rt, maxId, i, s.large);
    RecordSnoc(rt, map[], s.large, [i]);
    SingletonKey(i);
  }

  lemma SeedMembers(rt: Index, minsupCount: int, maxId: int, i: int, large: Level)
    requires AllIdsIndexed(rt, maxId) && 1 <= i <= maxId && |rt[i]| >= minsupCount
    requires forall c {:trigger c in large} :: c in large <==> |c| == 1 && 1 <= c[0] < i && c[0] <= maxId && |rt[c[0]]| >= minsupCount
    ensures forall c {:trigger c in large + [[i]]} :: c in large + [[i]] <==> |c| == 1 && 1 <= c[0] < i + 1 && c[0] <= maxId && |rt[c[0]]| >= minsupCount
  {
    forall c ensures c in large + [[i]] <==> |c| == 1 && 1 <= c[0] < i + 1 && c[0] <= maxId && |rt[c[0]]| >= minsupCount {
      assert c in large + [[i]] <==> c in large || c == [i];
      if |c| == 1 && c[0] == i {
        assert c == [i];
      }
    }
  }

  lemma SeedOrder(rt: Index, maxId: int, i: int, large: Level)
    requires AllIdsIndexed(rt, maxId) && 1 <= i <= maxId
    requires IsLevel(large, 1) && LevelCovered(rt, large) && InRange(large, maxId)
    requires forall x :: 0 <= x < |large| ==> large[x][0] < i
    ensures IsLevel(large + [[i]], 1) && LevelCovered(rt, large + [[i]]) && InRange(large + [[i]], maxId)
    ensures forall x :: 0 <= x < |large + [[i]]| ==> (large + [[i]])[x][0] < i + 1
  {
    if |large| > 0 {
      assert LexLess(large[|large| - 1], [i]);
    }
    LexSortedSnoc(large, [i]);
  }

  /** An id whose list is too short is skipped. */
  lemma SeedSkip(rt: Index, minsupCount: int, maxId: int, i: int, s: Seeded)
    requires AllIdsIndexed(rt, maxId) && 1 <= i <= maxId && |rt[i]| < minsupCount
    requires SeedInv(rt, minsupCount, maxId, i, s)
    ensures SeedInv(rt, minsupCount, maxId, i + 1, s)
  {
    forall c | |c| == 1 && c[0] == i ensures c !in s.large {
    }
  }

  /**
   * Level 1 holds, in ascending order, exactly the singletons [i], 1 <= i <= maxId,
   * whose list has at least minsupCount entries; their list lengths are recorded
   * and counted.
   */
  lemma SeedSpec(rt: Index, minsupCount: int, maxId: int)
    requires AllIdsIndexed(rt, maxId)
    ensures var s := SeedFrom(rt, minsupCount, maxId, 1, Seeded([], map[], 0));
      && (forall c :: c in s.large <==> |c| == 1 && 1 <= c[0] <= maxId && |rt[c[0]]| >= minsupCount)
      && IsLevel(s.large, 1) && LevelCovered(rt, s.large) && InRange(s.large, maxId)
      && s.counts == Record(rt, map[], s.large) && s.num == |s.large|
      && (|s.large| > 0 ==> Ready(rt, s.large))
  {
    if maxId >= 0 {
      SeedFromInv(rt, minsupCount, maxId, 1, Seeded([], map[], 0), SeedFrom(rt, minsupCount, maxId, 1, Seeded([], map[], 0)));
    }
  }

  // ---------------------------------------------------------------------
  // The count map and the counter over all levels

  /** The number of itemsets in all levels together. */
  function Total(levels: seq<Level>): nat
  {
    if |levels| == 0 then 0 else Total(levels[..|levels| - 1]) + |levels[|levels| - 1]|
  }

  /** Recording a level stores the support of each of its itemsets under its key. */
  lemma {:induction false} RecordAt(rt: Index, m: Counts, out: Level, c: seq<int>)
    requires LevelCovered(rt, out) && c in out
    ensures ItemsetsToString(c) in Record(rt, m, out)
    ensures Record(rt, m, out)[ItemsetsToString(c)] == SupportByIntersection(rt, c)
  {
    var last := out[|out| - 1];
    if ItemsetsToString(last) == ItemsetsToString(c) {
      ItemsetsToStringInjective(last, c);
    } else {
      var x :| 0 <= x < |out| && out[x] == c;
      assert out[..|out| - 1][x] == c;
      RecordAt(rt, m, out[..|out| - 1], c);
    }
  }

  /** Recording a level leaves every other key as it was. */
  lemma {:induction false} RecordOther(rt: Index, m: Counts, out: Level, key: string)
    requires LevelCovered(rt, out)
    requires forall x :: 0 <= x < |out| ==> ItemsetsToString(out[x]) != key
    ensures key in Record(rt, m, out) <==> key in m
    ensures key in m ==> Record(rt, m, out)[key] == m[key]
  {
    if |out| > 0 {
      RecordOther(rt, m, out[..|out| - 1], key);
    }
  }

  /** Recording a level adds no key but those of its itemsets. */
  lemma {:induction false} RecordKeys(rt: Index, m: Counts, out: Level, key: string)
    requires LevelCovered(rt, out) && key in Record(rt, m, out)
    ensures key in m || exists x :: 0 <= x < |out| && ItemsetsToString(out[x]) == key
  {
    if |out| > 0 && key != ItemsetsToString(out[|out| - 1]) {
      RecordKeys(rt, m, out[..|out| - 1], key);
      if !(key in m) {
        var x :| 0 <= x < |out| - 1 && ItemsetsToString(out[..|out| - 1][x]) == key;
        assert out[x] == out[..|out| - 1][x];
      }
    }
  }
}
