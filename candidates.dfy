/**
 * How often nextLevelLargeItemsets (algorithm/algorithm.go:147-190) produces a
 * candidate while it walks the pairs of a level.
 *
 * The pass enumerates the pairs (i, j), i < j, of level L row by row. A
 * (k+1)-candidate C can only be produced in the row of C without its last
 * item, and there by the pairs whose second itemset is C without item p, for
 * p < k. Counting those pairs shows that C is produced at most k times, that
 * it is produced k times exactly when every k-subset of C is in L, and that
 * its k-th production is the pair whose second itemset is C without its first
 * item.
 */
module Candidates {
  import opened Itemsets

  type Level = seq<seq<int>>

  /** A level as the miner keeps it: ascending k-itemsets in strictly ascending lexicographic order. */
  predicate IsLevel(l: Level, k: nat)
  {
    && (forall i :: 0 <= i < |l| ==> |l[i]| == k && Ascending(l[i]))
    && LexSorted(l)
  }

  /** Each itemset of l is lexicographically smaller than the next one. */
  predicate LexSorted(l: Level)
  {
    |l| <= 1 || (LexLess(l[0], l[1]) && LexSorted(l[1..]))
  }

  lemma {:induction false} LexSortedAt(l: Level, i: int, j: int)
    requires LexSorted(l) && 0 <= i < j < |l|
    ensures LexLess(l[i], l[j])
  {
    if i > 0 {
      LexSortedAt(l[1..], i - 1, j - 1);
    } else if j > 1 {
      LexSortedAt(l[1..], 0, j - 1);
      LexLessTransitive(l[0], l[1], l[j]);
    }
  }

  /** Appending an itemset larger than the last one keeps a level sorted. */
  lemma {:induction false} LexSortedSnoc(l: Level, x: seq<int>)
    requires LexSorted(l) && (|l| > 0 ==> LexLess(l[|l| - 1], x))
    ensures LexSorted(l + [x])
  {
    if |l| > 1 {
      assert (l + [x])[1..] == l[1..] + [x];
      LexSortedSnoc(l[1..], x);
    }
  }

  /** Every size-(|c|-1) subset of c, that is c without one of its items, is in l. */
  predicate AllSubsetsIn(l: Level, c: seq<int>)
  {
    forall p :: 0 <= p < |c| ==> Remove(c, p) in l
  }

  /** The pair (i, j) of l merges into c. */
  predicate Produces(l: Level, i: int, j: int, c: seq<int>)
  {
    && 0 <= i < j < |l|
    && |l[i]| == |l[j]| >= 1 && l[i] != l[j]
    && MergeOk(l[i], l[j]) && Merged(l[i], l[j]) == c
  }

  /** The number of pairs (i, j') with i < j' < j that produce c. */
  function RowCount(l: Level, i: int, j: int, c: seq<int>): nat
    decreases j - i
  {
    if j <= i + 1 then 0
    else RowCount(l, i, j - 1, c) + (if Produces(l, i, j - 1, c) then 1 else 0)
  }

  /** The number of pairs of the rows before row i that produce c. */
  function SeenRows(l: Level, i: nat, c: seq<int>): nat
  {
    if i == 0 then 0 else SeenRows(l, i - 1, c) + RowCount(l, i - 1, |l|, c)
  }

  /** The number of pairs enumerated before position (i, j) of the pass that produce c. */
  function Seen(l: Level, i: nat, j: int, c: seq<int>): nat
  {
    SeenRows(l, i, c) + RowCount(l, i, j, c)
  }

  /** The positions p < k such that c without item p appears in l strictly between rows i and j. */
  ghost function RowSet(l: Level, k: nat, i: int, j: int, c: seq<int>): (s: set<nat>)
    requires |c| == k + 1
    ensures forall p :: p in s ==> p < k
  {
    set p: nat | p < k && exists j' :: i < j' < j && 0 <= j' < |l| && l[j'] == Remove(c, p)
  }

  /** Positions in a level are ordered as their itemsets are; in particular its itemsets are distinct. */
  lemma LevelDistinct(l: Level, k: nat, i: int, j: int)
    requires IsLevel(l, k) && 0 <= i < |l| && 0 <= j < |l|
    ensures l[i] == l[j] <==> i == j
    ensures LexLess(l[i], l[j]) <==> i < j
  {
    if i < j {
      LexSortedAt(l, i, j);
      LexLessFirstDiff(l[i], l[j]);
    } else if j < i {
      LexSortedAt(l, j, i);
      LexLessFirstDiff(l[j], l[i]);
      LexLessAsymmetric(l[j], l[i]);
    } else {
      LexLessIrreflexive(l[i]);
    }
  }

  /** A producing pair determines the candidate's shape: it is c without its last item and c without some item p < k. */
  lemma ProducesShape(l: Level, k: nat, i: int, j: int, c: seq<int>)
    requires IsLevel(l, k) && Produces(l, i, j, c)
    ensures k >= 1 && |c| == k + 1 && Ascending(c)
    ensures l[i] == c[..k] && l[i] == Remove(c, k)
    ensures FirstDiff(l[i], l[j]) < k && l[j] == Remove(c, FirstDiff(l[i], l[j]))
  {
    MergeShape(l[i], l[j]);
  }

  /** Conversely, c without its last item and c without item p < k, both in l, form a producing pair in that order. */
  lemma ProducesOfRemoval(l: Level, k: nat, i: int, j: int, c: seq<int>, p: nat)
    requires IsLevel(l, k) && Ascending(c) && |c| == k + 1 && p < k
    requires 0 <= i < |l| && 0 <= j < |l|
    requires l[i] == c[..k] && l[j] == Remove(c, p)
    ensures i < j && Produces(l, i, j, c) && FirstDiff(l[i], l[j]) == p
  {
    MergeOfRemovals(c, p);
    RemoveOrder(c, p, k);
    LevelDistinct(l, k, i, j);
  }

  /** Only the row of c without its last item produces c. */
  lemma {:induction false} RowCountZero(l: Level, k: nat, i: int, j: int, c: seq<int>)
    requires IsLevel(l, k)
    requires !(0 <= i < |l| && |c| == k + 1 && Ascending(c) && l[i] == c[..k])
    ensures RowCount(l, i, j, c) == 0
    decreases j - i
  {
    if j > i + 1 {
      RowCountZero(l, k, i, j - 1, c);
      if Produces(l, i, j - 1, c) {
        ProducesShape(l, k, i, j - 1, c);
      }
    }
  }

  /** Within its row, c is produced once for each position p whose subset has been passed. */
  lemma {:induction false} RowCountAsSet(l: Level, k: nat, i: int, j: int, c: seq<int>)
    requires IsLevel(l, k) && Ascending(c) && |c| == k + 1
    requires 0 <= i < |l| && l[i] == c[..k] && i < j <= |l|
    ensures RowCount(l, i, j, c) == |RowSet(l, k, i, j, c)|
    decreases j - i
  {
    if j == i + 1 {
      RowSetEmpty(l, k, i, c);
    } else {
      RowCountAsSet(l, k, i, j - 1, c);
      RowSetStep(l, k, i, j - 1, j, c);
    }
  }

  lemma RowSetEmpty(l: Level, k: nat, i: int, c: seq<int>)
    requires |c| == k + 1
    ensures RowSet(l, k, i, i + 1, c) == {}
  {
  }

  lemma RowSetStep(l: Level, k: nat, i: int, j: int, next: int, c: seq<int>)
    requires IsLevel(l, k) && Ascending(c) && |c| == k + 1
    requires 0 <= i < |l| && l[i] == c[..k] && i < j < |l| && next == j + 1
    requires RowCount(l, i, j, c) == |RowSet(l, k, i, j, c)|
    ensures RowCount(l, i, next, c) == |RowSet(l, k, i, next, c)|
  {
    if Produces(l, i, j, c) {
      RowSetProduced(l, k, i, j, c);
    } else {
      RowSetUnchanged(l, k, i, j, c);
    }
  }

  /** A producing pair (i, j) adds one new position to the row's set: the one its second itemset leaves out. */
  lemma RowSetProduced(l: Level, k: nat, i: int, j: int, c: seq<int>)
    requires IsLevel(l, k) && Ascending(c) && |c| == k + 1
    requires 0 <= i < |l| && l[i] == c[..k] && Produces(l, i, j, c)
    ensures |RowSet(l, k, i, j + 1, c)| == |RowSet(l, k, i, j, c)| + 1
  {
    ProducesShape(l, k, i, j, c);
    var p0 := FirstDiff(l[i], l[j]);
    RowSetFresh(l, k, i, j, c, p0);
    RowSetAdds(l, k, i, j, c, p0);
    AddFresh(RowSet(l, k, i, j, c), p0);
  }

  lemma AddFresh(s: set<nat>, x: nat)
    requires x !in s
    ensures |s + {x}| == |s| + 1
  {
  }

  /** The subset l[j] has not been passed before position j of its row. */
  lemma RowSetFresh(l: Level, k: nat, i: int, j: int, c: seq<int>, p0: nat)
    requires IsLevel(l, k) && |c| == k + 1 && 0 <= i < j < |l| && p0 < k && l[j] == Remove(c, p0)
    ensures p0 !in RowSet(l, k, i, j, c)
  {
    forall j' | i < j' < j ensures l[j'] != l[j] {
      LevelDistinct(l, k, j', j);
    }
  }

  /** Passing l[j] = Remove(c, p0) adds exactly p0 to the row's set. */
  lemma RowSetAdds(l: Level, k: nat, i: int, j: int, c: seq<int>, p0: nat)
    requires Ascending(c) && |c| == k + 1 && 0 <= i < j < |l| && p0 < k && l[j] == Remove(c, p0)
    ensures RowSet(l, k, i, j + 1, c) == RowSet(l, k, i, j, c) + {p0}
  {
    var before, after := RowSet(l, k, i, j, c), RowSet(l, k, i, j + 1, c);
    forall p: nat | p in after && p !in before ensures p == p0 {
      var j' :| i < j' < j + 1 && 0 <= j' < |l| && l[j'] == Remove(c, p);
      assert j' == j;
      RemoveInjective(c, p, p0);
    }
  }

  /** Leaving out different positions of an ascending itemset gives different itemsets. */
  lemma RemoveInjective(c: seq<int>, p: nat, q: nat)
    requires Ascending(c) && p < |c| && q < |c|
    ensures Remove(c, p) == Remove(c, q) <==> p == q
  {
    if p < q {
      RemoveOrder(c, p, q);
      LexLessFirstDiff(Remove(c, q), Remove(c, p));
    } else if q < p {
      RemoveOrder(c, q, p);
      LexLessFirstDiff(Remove(c, p), Remove(c, q));
    }
  }

  /** A pair (i, j) that does not produce c leaves the row's set as it was. */
  lemma RowSetUnchanged(l: Level, k: nat, i: int, j: int, c: seq<int>)
    requires IsLevel(l, k) && Ascending(c) && |c| == k + 1
    requires 0 <= i < |l| && l[i] == c[..k] && i < j < |l| && !Produces(l, i, j, c)
    ensures RowSet(l, k, i, j + 1, c) == RowSet(l, k, i, j, c)
  {
    forall p: nat | p < k ensures l[j] != Remove(c, p) {
      if l[j] == Remove(c, p) {
        ProducesOfRemoval(l, k, i, j, c, p);
      }
    }
    var before, after := RowSet(l, k, i, j, c), RowSet(l, k, i, j + 1, c);
    forall p: nat ensures p in after <==> p in before {
      if p in after {
        var j' :| i < j' < j + 1 && 0 <= j' < |l| && l[j'] == Remove(c, p);
      }
    }
  }

  /** A set of positions below k has at most k members, and exactly k only when it holds every position. */
  lemma {:induction false} SubsetOfRange(s: set<nat>, k: nat)
    requires forall p :: p in s ==> p < k
    ensures |s| <= k
    ensures |s| == k ==> forall p: nat :: p < k ==> p in s
    ensures (forall p: nat :: p < k ==> p in s) ==> |s| == k
  {
    if k > 0 {
      var s' := s - {k - 1};
      SubsetOfRange(s', k - 1);
      if k - 1 in s {
        assert s == s' + {k - 1};
      } else {
        assert s == s';
      }
    }
  }

  /** A candidate is produced at most k times within its row. */
  lemma RowCountBound(l: Level, k: nat, i: int, j: int, c: seq<int>)
    requires IsLevel(l, k)
    ensures RowCount(l, i, j, c) <= k
  {
    if j <= i + 1 {
    } else if 0 <= i < |l| && |c| == k + 1 && Ascending(c) && l[i] == c[..k] {
      var jj := if j <= |l| then j else |l|;
      RowCountAsSet(l, k, i, jj, c);
      SubsetOfRange(RowSet(l, k, i, jj, c), k);
      if j > |l| {
        RowCountBeyond(l, i, jj, j, c);
      }
    } else {
      RowCountZero(l, k, i, j, c);
    }
  }

  /** Pairs past the end of the level produce nothing. */
  lemma {:induction false} RowCountBeyond(l: Level, i: int, j: int, j2: int, c: seq<int>)
    requires j == |l| && j <= j2
    ensures RowCount(l, i, j2, c) == RowCount(l, i, j, c)
    decreases j2 - j
  {
    if j2 > j {
      RowCountBeyond(l, i, j, j2 - 1, c);
    }
  }

  /** A full row produces c k times exactly when every k-subset of c is in the level. */
  lemma RowCountFull(l: Level, k: nat, i: int, c: seq<int>)
    requires IsLevel(l, k) && Ascending(c) && |c| == k + 1
    requires 0 <= i < |l| && l[i] == c[..k]
    ensures RowCount(l, i, |l|, c) == k <==> AllSubsetsIn(l, c)
  {
    RowCountAsSet(l, k, i, |l|, c);
    var s := RowSet(l, k, i, |l|, c);
    SubsetOfRange(s, k);
    if AllSubsetsIn(l, c) {
      AllSubsetsHit(l, k, i, c);
    }
    if RowCount(l, i, |l|, c) == k {
      HitAllSubsets(l, k, i, c);
    }
  }

  lemma AllSubsetsHit(l: Level, k: nat, i: int, c: seq<int>)
    requires IsLevel(l, k) && Ascending(c) && |c| == k + 1
    requires 0 <= i < |l| && l[i] == c[..k] && AllSubsetsIn(l, c)
    ensures forall p: nat :: p < k ==> p in RowSet(l, k, i, |l|, c)
  {
    forall p: nat | p < k ensures p in RowSet(l, k, i, |l|, c) {
      assert Remove(c, p) in l;
      var j' :| 0 <= j' < |l| && l[j'] == Remove(c, p);
      ProducesOfRemoval(l, k, i, j', c, p);
    }
  }

  lemma HitAllSubsets(l: Level, k: nat, i: int, c: seq<int>)
    requires IsLevel(l, k) && Ascending(c) && |c| == k + 1
    requires 0 <= i < |l| && l[i] == c[..k]
    requires forall p: nat :: p < k ==> p in RowSet(l, k, i, |l|, c)
    ensures AllSubsetsIn(l, c)
  {
    assert Remove(c, k) == l[i];
    forall p | 0 <= p < k ensures Remove(c, p) in l {
      assert p in RowSet(l, k, i, |l|, c);
    }
  }

  /**
   * The pair that brings the count of c to k is the one whose second itemset
   * is c without its first item.
   */
  lemma RowCountCompletes(l: Level, k: nat, i: int, j: int, c: seq<int>)
    requires IsLevel(l, k) && Produces(l, i, j, c)
    requires RowCount(l, i, j, c) == k - 1
    ensures l[j] == c[1..] && RowCount(l, i, j + 1, c) == k
  {
    RowCountNext(l, i, j, c);
    var j' := FirstSubsetAt(l, k, i, j, c);
    LastRemovesFirst(l, k, i, j, j', c);
  }

  /** The pair that completes c comes after c without its first item. */
  lemma FirstSubsetAt(l: Level, k: nat, i: int, j: int, c: seq<int>) returns (j': int)
    requires IsLevel(l, k) && Produces(l, i, j, c) && RowCount(l, i, j + 1, c) == k
    ensures i < j' <= j && l[j'] == Remove(c, 0)
  {
    ProducesPrefix(l, k, i, j, c);
    j' := FirstSubsetPassed(l, k, i, j + 1, c);
  }

  /** A producing pair starts from the prefix of c. */
  lemma ProducesPrefix(l: Level, k: nat, i: int, j: int, c: seq<int>)
    requires IsLevel(l, k) && Produces(l, i, j, c)
    ensures k >= 1 && |c| == k + 1 && Ascending(c) && 0 <= i < |l| && l[i] == c[..k]
  {
    ProducesShape(l, k, i, j, c);
  }

  /** Once a row has produced c k times, it has passed c without its first item. */
  lemma FirstSubsetPassed(l: Level, k: nat, i: int, j: int, c: seq<int>) returns (j': int)
    requires IsLevel(l, k) && Ascending(c) && |c| == k + 1 && k >= 1
    requires 0 <= i < |l| && l[i] == c[..k] && i < j <= |l| && RowCount(l, i, j, c) == k
    ensures i < j' < j && l[j'] == Remove(c, 0)
  {
    RowCountAsSet(l, k, i, j, c);
    SubsetOfRange(RowSet(l, k, i, j, c), k);
    assert 0 in RowSet(l, k, i, j, c);
    j' :| i < j' < j && 0 <= j' < |l| && l[j'] == Remove(c, 0);
  }

  /** Once c without its first item has been passed in the row, no later pair produces c. */
  lemma LastRemovesFirst(l: Level, k: nat, i: int, j: int, j': int, c: seq<int>)
    requires IsLevel(l, k) && Produces(l, i, j, c)
    requires i < j' <= j && l[j'] == Remove(c, 0)
    ensures FirstDiff(l[i], l[j]) == 0 && l[j] == c[1..]
  {
    ProducesShape(l, k, i, j, c);
    LevelDistinct(l, k, j, j');
    RemoveFirst(c);
  }

  lemma RowCountNext(l: Level, i: int, j: int, c: seq<int>)
    requires i < j
    ensures RowCount(l, i, j + 1, c) == RowCount(l, i, j, c) + (if Produces(l, i, j, c) then 1 else 0)
  {
  }

  /** Rows before the row of c contribute nothing; the rows after it contribute its whole row. */
  lemma {:induction false} SeenRowsAt(l: Level, k: nat, i: nat, c: seq<int>, r: nat)
    requires IsLevel(l, k) && Ascending(c) && |c| == k + 1
    requires r < |l| && l[r] == c[..k] && i <= |l|
    ensures SeenRows(l, i, c) == if r < i then RowCount(l, r, |l|, c) else 0
  {
    if i > 0 {
      SeenRowsAt(l, k, i - 1, c, r);
      if i - 1 != r {
        LevelDistinct(l, k, i - 1, r);
        RowCountZero(l, k, i - 1, |l|, c);
      }
    }
  }

  /** Without a row for c, nothing produces it. */
  lemma {:induction false} SeenRowsNone(l: Level, k: nat, i: nat, c: seq<int>)
    requires IsLevel(l, k)
    requires !(|c| == k + 1 && Ascending(c) && c[..k] in l)
    ensures SeenRows(l, i, c) == 0
  {
    if i > 0 {
      SeenRowsNone(l, k, i - 1, c);
      RowCountZero(l, k, i - 1, |l|, c);
    }
  }

  /** Up to any position, a candidate has been produced at most k times. */
  lemma SeenBound(l: Level, k: nat, i: nat, j: int, c: seq<int>)
    requires IsLevel(l, k) && i < |l|
    ensures Seen(l, i, j, c) <= k
  {
    RowCountBound(l, k, i, j, c);
    if |c| == k + 1 && Ascending(c) && c[..k] in l {
      var r :| 0 <= r < |l| && l[r] == c[..k];
      SeenRowsAt(l, k, i, c, r);
      RowCountBound(l, k, r, |l|, c);
      if r != i {
        LevelDistinct(l, k, i, r);
        RowCountZero(l, k, i, j, c);
      }
    } else {
      SeenRowsNone(l, k, i, c);
    }
  }

  /** A candidate produced before (i, j) has its row at or before i. */
  lemma SeenRow(l: Level, k: nat, i: nat, j: int, c: seq<int>) returns (r: nat)
    requires IsLevel(l, k) && i < |l| && Seen(l, i, j, c) > 0
    ensures |c| == k + 1 && Ascending(c) && r <= i && l[r] == c[..k]
    ensures r < i ==> Seen(l, i, j, c) == RowCount(l, r, |l|, c)
    ensures r == i ==> Seen(l, i, j, c) == RowCount(l, i, j, c)
  {
    r := 0;
    if |c| == k + 1 && Ascending(c) && c[..k] in l {
      r :| 0 <= r < |l| && l[r] == c[..k];
      SeenRowsAt(l, k, i, c, r);
      if r != i {
        LevelDistinct(l, k, i, r);
        RowCountZero(l, k, i, j, c);
      }
    } else {
      SeenRowsNone(l, k, i, c);
      RowCountZero(l, k, i, j, c);
    }
  }

  /**
   * After the last pair, a candidate has been produced k times exactly when
   * it is an ascending (k+1)-itemset all of whose k-subsets are in the level.
   */
  lemma SeenAtEnd(l: Level, k: nat, c: seq<int>)
    requires IsLevel(l, k) && k >= 1 && |l| >= 1
    ensures Seen(l, |l| - 1, |l|, c) == k <==> |c| == k + 1 && Ascending(c) && AllSubsetsIn(l, c)
  {
    var n := |l|;
    if |c| == k + 1 && Ascending(c) && AllSubsetsIn(l, c) {
      assert Remove(c, k) == c[..k];
      var r :| 0 <= r < n && l[r] == c[..k];
      SeenRowsAt(l, k, n - 1, c, r);
      RowCountFull(l, k, r, c);
      var j' :| 0 <= j' < n && l[j'] == Remove(c, 0);
      ProducesOfRemoval(l, k, r, j', c, 0);
    }
    if Seen(l, n - 1, n, c) == k {
      var r := SeenRow(l, k, n - 1, n, c);
      if r < n - 1 {
        RowCountFull(l, k, r, c);
      }
    }
  }

  /**
   * Candidates are completed in lexicographic order: one completed before
   * position (i, j) is smaller than the candidate the pair (i, j) completes.
   */
  lemma CompletedBefore(l: Level, k: nat, i: nat, j: int, c: seq<int>, d: seq<int>)
    requires IsLevel(l, k) && Produces(l, i, j, c) && Seen(l, i, j, c) == k - 1
    requires Seen(l, i, j, d) == k
    ensures LexLess(d, c)
  {
    ProducesShape(l, k, i, j, c);
    var rd := SeenRow(l, k, i, j, d);
    if rd < i {
      LevelDistinct(l, k, rd, i);
      LexLessExtend(d, c, k);
    } else {
      // same row: d was completed by an earlier pair, whose second itemset is d without its first item
      CompletingRow(l, k, i, j, c);
      RowCountCompletes(l, k, i, j, c);
      var jd := FirstSubsetPassed(l, k, i, j, d);
      LevelDistinct(l, k, jd, j);
      SameRowOrder(d, c, k);
    }
  }

  /** All earlier productions of the candidate a pair produces happened in that pair's row. */
  lemma CompletingRow(l: Level, k: nat, i: nat, j: int, c: seq<int>)
    requires IsLevel(l, k) && Produces(l, i, j, c)
    ensures Seen(l, i, j, c) == RowCount(l, i, j, c)
  {
    ProducesShape(l, k, i, j, c);
    SeenRowsAt(l, k, i, c, i);
  }

  /** Two ascending (k+1)-itemsets that share their first k items compare as their tails do. */
  lemma SameRowOrder(d: seq<int>, c: seq<int>, k: nat)
    requires k >= 1 && |d| == |c| == k + 1 && d[..k] == c[..k]
    requires LexLess(Remove(d, 0), Remove(c, 0))
    ensures LexLess(d, c)
  {
    var a, b := Remove(d, 0), Remove(c, 0);
    forall m | 0 <= m < k - 1 ensures a[m] == b[m] {
      assert d[..k][m + 1] == c[..k][m + 1];
    }
    LexLessFirstDiff(a, b);
    assert a[k - 1] < b[k - 1];
    forall m | 0 <= m < k ensures d[m] == c[m] {
      assert d[..k][m] == c[..k][m];
    }
    LexLessAt(d, c, k);
  }
}
