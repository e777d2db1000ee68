/**
 * What the miner finds. Over an index built from n transactions in which every
 * id 1..maxId has a list, the levels of RunFrom are exactly the frequent
 * itemsets of ids 1..maxId, level by level and in lexicographic order, the
 * count map holds the support of each of them and nothing else, and the
 * counter is their number. This is the Apriori claim: a (k+1)-itemset can only
 * be frequent when all its k-subsets are, so generating candidates from the
 * frequent k-itemsets alone loses nothing.
 */
module Correctness {
  import opened Keys
  import opened Itemsets
  import opened TransactionIndex
  import opened Candidates
  import opened Mining

  /** The setting of the theorems: a well-formed index of n transactions with a list for every id 1..maxId. */
  predicate Indexed(rt: Index, n: nat, maxId: int)
  {
    WellFormed(rt, n) && AllIdsIndexed(rt, maxId)
  }

  /** All items of s are ids in 1..maxId. */
  predicate ItemsIn(s: seq<int>, maxId: int)
  {
    forall y :: 0 <= y < |s| ==> 1 <= s[y] <= maxId
  }

  /** A frequent itemset: non-empty, ascending, of ids 1..maxId, held by at least minsupCount transactions. */
  predicate IsFrequentSet(rt: Index, n: nat, minsupCount: int, maxId: int, c: seq<int>)
  {
    |c| >= 1 && Ascending(c) && ItemsIn(c, maxId) && Support(rt, c, n) >= minsupCount
  }

  /** l is, in lexicographic order, the set of all frequent k-itemsets. */
  ghost predicate ExactLevel(rt: Index, n: nat, minsupCount: int, maxId: int, l: Level, k: nat)
  {
    IsLevel(l, k) && forall c {:trigger c in l} :: c in l <==> |c| == k && IsFrequentSet(rt, n, minsupCount, maxId, c)
  }

  /** The count itemsetCount computes is the support. */
  lemma CountIsSupport(rt: Index, n: nat, maxId: int, c: seq<int>)
    requires Indexed(rt, n, maxId) && |c| >= 1 && ItemsIn(c, maxId)
    ensures Covered(rt, c) && SupportByIntersection(rt, c) == Support(rt, c, n)
  {
    SupportByIntersectionCorrect(rt, n, c);
  }

  lemma ExactInRange(rt: Index, n: nat, minsupCount: int, maxId: int, l: Level, k: nat)
    requires ExactLevel(rt, n, minsupCount, maxId, l, k)
    ensures InRange(l, maxId)
  {
    forall x | 0 <= x < |l| ensures ItemsIn(l[x], maxId) {
      assert l[x] in l;
    }
  }

  lemma ExactCovered(rt: Index, n: nat, minsupCount: int, maxId: int, l: Level, k: nat)
    requires Indexed(rt, n, maxId) && ExactLevel(rt, n, minsupCount, maxId, l, k) && k >= 1
    ensures LevelCovered(rt, l) && InRange(l, maxId)
    ensures |l| > 0 ==> Ready(rt, l) && |l[0]| == k
  {
    ExactInRange(rt, n, minsupCount, maxId, l, k);
    forall x | 0 <= x < |l| ensures Covered(rt, l[x]) {
      assert l[x] in l;
    }
  }

  // ---------------------------------------------------------------------
  // Level 1

  /** The level-1 loop finds exactly the frequent 1-itemsets. */
  lemma SeedCorrect(rt: Index, n: nat, minsupCount: int, maxId: int)
    requires Indexed(rt, n, maxId)
    ensures ExactLevel(rt, n, minsupCount, maxId, SeedFrom(rt, minsupCount, maxId, 1, Seeded([], map[], 0)).large, 1)
  {
    var large := SeedFrom(rt, minsupCount, maxId, 1, Seeded([], map[], 0)).large;
    SeedSpec(rt, minsupCount, maxId);
    forall c | |c| == 1 && 1 <= c[0] <= maxId
      ensures |rt[c[0]]| == Support(rt, c, n) && ItemsIn(c, maxId)
    {
      CountIsSupport(rt, n, maxId, c);
    }
  }

  // ---------------------------------------------------------------------
  // One pass

  /** Leaving an item out of a frequent itemset gives a frequent itemset. */
  lemma RemoveFrequent(rt: Index, n: nat, minsupCount: int, maxId: int, c: seq<int>, p: nat)
    requires IsFrequentSet(rt, n, minsupCount, maxId, c) && |c| >= 2 && p < |c|
    ensures IsFrequentSet(rt, n, minsupCount, maxId, Remove(c, p))
  {
    RemoveAscending(c, p);
    var r := Remove(c, p);
    forall y | 0 <= y < |r| ensures 1 <= r[y] <= maxId {
      if y < p { assert r[y] == c[y]; } else { assert r[y] == c[y + 1]; }
    }
    SupportAntiMonotone(rt, r, c, n);
  }

  /** A frequent itemset has all its one-smaller subsets in the exact level below it. */
  lemma FrequentSubsetsIn(rt: Index, n: nat, minsupCount: int, maxId: int, l: Level, c: seq<int>)
    requires |c| >= 2 && ExactLevel(rt, n, minsupCount, maxId, l, |c| - 1)
    requires IsFrequentSet(rt, n, minsupCount, maxId, c)
    ensures AllSubsetsIn(l, c)
  {
    forall p | 0 <= p < |c| ensures Remove(c, p) in l {
      RemoveFrequent(rt, n, minsupCount, maxId, c, p);
    }
  }

  /** Every candidate a pass admits is frequent, and every frequent (k+1)-itemset is admitted. */
  lemma PassMember(rt: Index, n: nat, minsupCount: int, maxId: int, l: Level, counts: Counts, num: int, c: seq<int>)
    requires Indexed(rt, n, maxId) && Ready(rt, l)
    requires ExactLevel(rt, n, minsupCount, maxId, l, |l[0]|)
    ensures c in NextLevel(rt, minsupCount, l, counts, num).out <==> |c| == |l[0]| + 1 && IsFrequentSet(rt, n, minsupCount, maxId, c)
  {
    var out := NextLevel(rt, minsupCount, l, counts, num).out;
    NextLevelSpec(rt, minsupCount, l, counts, num);
    ExactInRange(rt, n, minsupCount, maxId, l, |l[0]|);
    NextInRange(rt, minsupCount, l, counts, num, maxId);
    if c in out {
      var x :| 0 <= x < |out| && out[x] == c;
      assert ItemsIn(out[x], maxId);
      CountIsSupport(rt, n, maxId, c);
    }
    if |c| == |l[0]| + 1 && IsFrequentSet(rt, n, minsupCount, maxId, c) {
      FrequentSubsetsIn(rt, n, minsupCount, maxId, l, c);
      CountIsSupport(rt, n, maxId, c);
    }
  }

  /** From the exact level of frequent k-itemsets a pass computes the exact level of frequent (k+1)-itemsets. */
  lemma PassCorrect(rt: Index, n: nat, minsupCount: int, maxId: int, l: Level, counts: Counts, num: int)
    requires Indexed(rt, n, maxId) && Ready(rt, l)
    requires ExactLevel(rt, n, minsupCount, maxId, l, |l[0]|)
    ensures ExactLevel(rt, n, minsupCount, maxId, NextLevel(rt, minsupCount, l, counts, num).out, |l[0]| + 1)
  {
    NextLevelSpec(rt, minsupCount, l, counts, num);
    forall c ensures c in NextLevel(rt, minsupCount, l, counts, num).out <==> |c| == |l[0]| + 1 && IsFrequentSet(rt, n, minsupCount, maxId, c) {
      PassMember(rt, n, minsupCount, maxId, l, counts, num, c);
    }
  }

  // ---------------------------------------------------------------------
  // The stop rule

  /** The set of the itemsets c with the item at position p < m left out. */
  function Removals(c: seq<int>, m: nat): set<seq<int>>
    requires m <= |c|
  {
    if m == 0 then {} else Removals(c, m - 1) + {Remove(c, m - 1)}
  }

  lemma {:induction false} RemovalsMembers(c: seq<int>, m: nat)
    requires m <= |c|
    ensures forall r :: r in Removals(c, m) ==> exists p :: 0 <= p < m && r == Remove(c, p)
  {
    if m > 0 {
      RemovalsMembers(c, m - 1);
    }
  }

  /** Leaving out a position at or past m gives none of Removals(c, m). */
  lemma {:induction false} RemovalsExclude(c: seq<int>, m: nat, q: nat)
    requires Ascending(c) && m <= q < |c|
    ensures Remove(c, q) !in Removals(c, m)
  {
    if m > 0 {
      RemovalsExclude(c, m - 1, q);
      RemoveInjective(c, m - 1, q);
    }
  }

  lemma {:induction false} RemovalsSize(c: seq<int>, m: nat)
    requires Ascending(c) && m <= |c|
    ensures |Removals(c, m)| == m
  {
    if m > 0 {
      RemovalsSize(c, m - 1);
      RemovalsExclude(c, m - 1, m - 1);
    }
  }

  lemma {:induction false} SubsetSize<T>(a: set<T>, b: set<T>)
    requires a <= b
    ensures |a| <= |b|
  {
    if a != {} {
      var x :| x in a;
      SubsetSize(a - {x}, b - {x});
    }
  }

  /** The itemsets of a level, as a set. */
  function Elements(l: Level): (e: set<seq<int>>)
    ensures |e| <= |l|
    ensures forall r :: r in l ==> r in e
  {
    if |l| == 0 then {} else Elements(l[..|l| - 1]) + {l[|l| - 1]}
  }

  /** A level that holds all |c| one-smaller subsets of c has at least |c| itemsets. */
  lemma SubsetsNeedRoom(l: Level, c: seq<int>)
    requires Ascending(c) && AllSubsetsIn(l, c)
    ensures |l| >= |c|
  {
    RemovalsSize(c, |c|);
    RemovalsMembers(c, |c|);
    SubsetSize(Removals(c, |c|), Elements(l));
  }

  /**
   * The stop rule of nextLevelLargeItemsets: when the level of frequent
   * k-itemsets has fewer than k + 1 itemsets, no (k+1)-itemset is frequent.
   */
  lemma StopRuleSound(rt: Index, n: nat, minsupCount: int, maxId: int, l: Level, k: nat, c: seq<int>)
    requires k >= 1 && ExactLevel(rt, n, minsupCount, maxId, l, k)
    requires |c| == k + 1 && IsFrequentSet(rt, n, minsupCount, maxId, c)
    ensures |l| >= k + 1
  {
    FrequentSubsetsIn(rt, n, minsupCount, maxId, l, c);
    SubsetsNeedRoom(l, c);
  }

  /** A prefix of a frequent itemset is frequent. */
  lemma FrequentPrefix(rt: Index, n: nat, minsupCount: int, maxId: int, c: seq<int>, t: nat)
    requires IsFrequentSet(rt, n, minsupCount, maxId, c) && 1 <= t <= |c|
    ensures IsFrequentSet(rt, n, minsupCount, maxId, c[..t])
  {
    SupportAntiMonotone(rt, c[..t], c, n);
  }

  // ---------------------------------------------------------------------
  // All levels

  /**
   * The levels found so far are the exact levels 1..|levels|, none of them
   * empty; the count map holds, under its key, the support of every frequent
   * itemset of at most |levels| items and no other key; the counter is their
   * number.
   */
  ghost predicate MinedOk(rt: Index, n: nat, minsupCount: int, maxId: int, acc: Mined)
  {
    && (forall x :: 0 <= x < |acc.levels| ==> |acc.levels[x]| > 0 && ExactLevel(rt, n, minsupCount, maxId, acc.levels[x], x + 1))
    && (forall c :: IsFrequentSet(rt, n, minsupCount, maxId, c) && |c| <= |acc.levels| ==>
          ItemsetsToString(c) in acc.counts && acc.counts[ItemsetsToString(c)] == Support(rt, c, n))
    && (forall key :: key in acc.counts ==>
          exists c :: IsFrequentSet(rt, n, minsupCount, maxId, c) && |c| <= |acc.levels| && ItemsetsToString(c) == key)
    && acc.num == Total(acc.levels)
  }

  /** No itemset one larger than the last level is frequent. */
  ghost predicate Complete(rt: Index, n: nat, minsupCount: int, maxId: int, acc: Mined)
  {
    forall c :: |c| == |acc.levels| + 1 ==> !IsFrequentSet(rt, n, minsupCount, maxId, c)
  }

  /** Recording the next exact level keeps the counts right for every frequent itemset. */
  lemma ExtendValues(rt: Index, n: nat, minsupCount: int, maxId: int, acc: Mined, out: Level)
    requires Indexed(rt, n, maxId) && MinedOk(rt, n, minsupCount, maxId, acc) && LevelCovered(rt, out)
    requires ExactLevel(rt, n, minsupCount, maxId, out, |acc.levels| + 1)
    ensures forall c :: IsFrequentSet(rt, n, minsupCount, maxId, c) && |c| <= |acc.levels| + 1 ==>
      ItemsetsToString(c) in Record(rt, acc.counts, out) && Record(rt, acc.counts, out)[ItemsetsToString(c)] == Support(rt, c, n)
  {
    forall c | IsFrequentSet(rt, n, minsupCount, maxId, c) && |c| <= |acc.levels| + 1
      ensures ItemsetsToString(c) in Record(rt, acc.counts, out) && Record(rt, acc.counts, out)[ItemsetsToString(c)] == Support(rt, c, n)
    {
      if |c| == |acc.levels| + 1 {
        RecordAt(rt, acc.counts, out, c);
        CountIsSupport(rt, n, maxId, c);
      } else {
        forall x | 0 <= x < |out| ensures ItemsetsToString(out[x]) != ItemsetsToString(c) {
          if ItemsetsToString(out[x]) == ItemsetsToString(c) {
            ItemsetsToStringInjective(out[x], c);
          }
        }
        RecordOther(rt, acc.counts, out, ItemsetsToString(c));
      }
    }
  }

  /** Recording the next exact level adds only keys of frequent itemsets. */
  lemma ExtendKeys(rt: Index, n: nat, minsupCount: int, maxId: int, acc: Mined, out: Level)
    requires Indexed(rt, n, maxId) && MinedOk(rt, n, minsupCount, maxId, acc) && LevelCovered(rt, out)
    requires ExactLevel(rt, n, minsupCount, maxId, out, |acc.levels| + 1)
    ensures forall key :: key in Record(rt, acc.counts, out) ==>
      exists c :: IsFrequentSet(rt, n, minsupCount, maxId, c) && |c| <= |acc.levels| + 1 && ItemsetsToString(c) == key
  {
    forall key | key in Record(rt, acc.counts, out)
      ensures exists c :: IsFrequentSet(rt, n, minsupCount, maxId, c) && |c| <= |acc.levels| + 1 && ItemsetsToString(c) == key
    {
      RecordKeys(rt, acc.counts, out, key);
      if key !in acc.counts {
        var x :| 0 <= x < |out| && ItemsetsToString(out[x]) == key;
        assert out[x] in out;
      }
    }
  }

  lemma TotalSnoc(levels: seq<Level>, out: Level)
    ensures Total(levels + [out]) == Total(levels) + |out|
  {
    assert (levels + [out])[..|levels|] == levels;
  }

  lemma ExtendLevels(rt: Index, n: nat, minsupCount: int, maxId: int, levels: seq<Level>, out: Level)
    requires forall x :: 0 <= x < |levels| ==> |levels[x]| > 0 && ExactLevel(rt, n, minsupCount, maxId, levels[x], x + 1)
    requires ExactLevel(rt, n, minsupCount, maxId, out, |levels| + 1) && |out| > 0
    ensures forall x :: 0 <= x < |levels + [out]| ==> |(levels + [out])[x]| > 0 && ExactLevel(rt, n, minsupCount, maxId, (levels + [out])[x], x + 1)
  {
    forall x | 0 <= x < |levels + [out]|
      ensures |(levels + [out])[x]| > 0 && ExactLevel(rt, n, minsupCount, maxId, (levels + [out])[x], x + 1)
    {
      if x < |levels| {
        assert (levels + [out])[x] == levels[x];
      }
    }
  }

  /** Appending the next exact level keeps MinedOk. */
  lemma Extend(rt: Index, n: nat, minsupCount: int, maxId: int, acc: Mined, out: Level)
    requires Indexed(rt, n, maxId) && MinedOk(rt, n, minsupCount, maxId, acc) && LevelCovered(rt, out)
    requires ExactLevel(rt, n, minsupCount, maxId, out, |acc.levels| + 1) && |out| > 0
    ensures MinedOk(rt, n, minsupCount, maxId, Mined(acc.levels + [out], Record(rt, acc.counts, out), acc.num + |out|))
  {
    ExtendValues(rt, n, minsupCount, maxId, acc, out);
    ExtendKeys(rt, n, minsupCount, maxId, acc, out);
    ExtendLevels(rt, n, minsupCount, maxId, acc.levels, out);
    TotalSnoc(acc.levels, out);
  }

  /** A pass that finds nothing ends the run: no (k+1)-itemset is frequent. */
  lemma MineEmpty(rt: Index, n: nat, minsupCount: int, maxId: int, l: Level, acc: Mined)
    requires Indexed(rt, n, maxId) && Ready(rt, l) && InRange(l, maxId)
    requires |acc.levels| == |l[0]| && ExactLevel(rt, n, minsupCount, maxId, l, |l[0]|)
    requires MinedOk(rt, n, minsupCount, maxId, acc)
    requires |NextLevel(rt, minsupCount, l, acc.counts, acc.num).out| == 0
    ensures MinedOk(rt, n, minsupCount, maxId, MineFrom(rt, minsupCount, maxId, l, acc))
    ensures Complete(rt, n, minsupCount, maxId, MineFrom(rt, minsupCount, maxId, l, acc))
  {
    var st := NextLevel(rt, minsupCount, l, acc.counts, acc.num);
    NextLevelSpec(rt, minsupCount, l, acc.counts, acc.num);
    PassCorrect(rt, n, minsupCount, maxId, l, acc.counts, acc.num);
    assert st.counts == acc.counts && st.num == acc.num;
    assert MineFrom(rt, minsupCount, maxId, l, acc) == acc;
    forall c | |c| == |l[0]| + 1 ensures !IsFrequentSet(rt, n, minsupCount, maxId, c) {
      assert c !in st.out;
    }
  }

  /** A level too small to produce candidates ends the run: no (k+2)-itemset is frequent. */
  lemma MineStop(rt: Index, n: nat, minsupCount: int, maxId: int, acc: Mined, out: Level)
    requires |out| > 0 && |out| < |out[0]| + 1 && |out[0]| >= 1
    requires ExactLevel(rt, n, minsupCount, maxId, out, |out[0]|) && |acc.levels| == |out[0]|
    ensures Complete(rt, n, minsupCount, maxId, acc)
  {
    forall c | |c| == |out[0]| + 1 ensures !IsFrequentSet(rt, n, minsupCount, maxId, c) {
      if IsFrequentSet(rt, n, minsupCount, maxId, c) {
        StopRuleSound(rt, n, minsupCount, maxId, out, |out[0]|, c);
      }
    }
  }

  /** The levels found with the next non-empty level appended. */
  function Appended(rt: Index, minsupCount: int, l: Level, acc: Mined): Mined
    requires Ready(rt, l)
  {
    var st := NextLevel(rt, minsupCount, l, acc.counts, acc.num);
    Mined(acc.levels + [st.out], st.counts, st.num)
  }

  /** A pass that finds a non-empty level finds the exact next level. */
  lemma MineNext(rt: Index, n: nat, minsupCount: int, maxId: int, l: Level, acc: Mined)
    requires Indexed(rt, n, maxId) && Ready(rt, l)
    requires ExactLevel(rt, n, minsupCount, maxId, l, |l[0]|)
    requires |NextLevel(rt, minsupCount, l, acc.counts, acc.num).out| > 0
    ensures var out := NextLevel(rt, minsupCount, l, acc.counts, acc.num).out;
      && Ready(rt, out) && InRange(out, maxId) && |out[0]| == |l[0]| + 1
      && ExactLevel(rt, n, minsupCount, maxId, out, |out[0]|)
  {
    var st := NextLevel(rt, minsupCount, l, acc.counts, acc.num);
    PassCorrect(rt, n, minsupCount, maxId, l, acc.counts, acc.num);
    ExactCovered(rt, n, minsupCount, maxId, st.out, |l[0]| + 1);
  }

  /** ... and appending it keeps MinedOk. */
  lemma MineAppend(rt: Index, n: nat, minsupCount: int, maxId: int, l: Level, acc: Mined)
    requires Indexed(rt, n, maxId) && Ready(rt, l)
    requires |acc.levels| == |l[0]| && ExactLevel(rt, n, minsupCount, maxId, l, |l[0]|)
    requires MinedOk(rt, n, minsupCount, maxId, acc)
    requires |NextLevel(rt, minsupCount, l, acc.counts, acc.num).out| > 0
    ensures |Appended(rt, minsupCount, l, acc).levels| == |l[0]| + 1
    ensures MinedOk(rt, n, minsupCount, maxId, Appended(rt, minsupCount, l, acc))
  {
    var st := NextLevel(rt, minsupCount, l, acc.counts, acc.num);
    NextLevelRecord(rt, minsupCount, l, acc);
    MineNext(rt, n, minsupCount, maxId, l, acc);
    Extend(rt, n, minsupCount, maxId, acc, st.out);
  }

  /** What a pass appends: the new level, its recorded supports and its size added to the count. */
  lemma NextLevelRecord(rt: Index, minsupCount: int, l: Level, acc: Mined)
    requires Ready(rt, l)
    ensures var out := NextLevel(rt, minsupCount, l, acc.counts, acc.num).out;
      LevelCovered(rt, out) &&
      Appended(rt, minsupCount, l, acc) == Mined(acc.levels + [out], Record(rt, acc.counts, out), acc.num + |out|)
  {
    NextLevelSpec(rt, minsupCount, l, acc.counts, acc.num);
  }

  /** How MineFrom goes on after a pass that finds a non-empty level. */
  lemma MineUnfold(rt: Index, minsupCount: int, maxId: int, l: Level, acc: Mined)
    requires Ready(rt, l) && InRange(l, maxId)
    requires |NextLevel(rt, minsupCount, l, acc.counts, acc.num).out| > 0
    ensures var out := NextLevel(rt, minsupCount, l, acc.counts, acc.num).out;
      Ready(rt, out) && InRange(out, maxId) &&
      MineFrom(rt, minsupCount, maxId, l, acc) ==
        if |out| >= |out[0]| + 1 then MineFrom(rt, minsupCount, maxId, out, Appended(rt, minsupCount, l, acc))
        else Appended(rt, minsupCount, l, acc)
  {
    NextLevelSpec(rt, minsupCount, l, acc.counts, acc.num);
    NextInRange(rt, minsupCount, l, acc.counts, acc.num, maxId);
  }

  /** Mining on from the exact last level of acc finds all the frequent itemsets. */
  lemma {:induction false} MineFromCorrect(rt: Index, n: nat, minsupCount: int, maxId: int, l: Level, acc: Mined)
    requires Indexed(rt, n, maxId) && Ready(rt, l) && InRange(l, maxId)
    requires |acc.levels| == |l[0]| && ExactLevel(rt, n, minsupCount, maxId, l, |l[0]|)
    requires MinedOk(rt, n, minsupCount, maxId, acc)
    ensures MinedOk(rt, n, minsupCount, maxId, MineFrom(rt, minsupCount, maxId, l, acc))
    ensures Complete(rt, n, minsupCount, maxId, MineFrom(rt, minsupCount, maxId, l, acc))
    decreases maxId - |l[0]|
  {
    var out := NextLevel(rt, minsupCount, l, acc.counts, acc.num).out;
    if |out| == 0 {
      MineEmpty(rt, n, minsupCount, maxId, l, acc);
    } else {
      MineNext(rt, n, minsupCount, maxId, l, acc);
      MineAppend(rt, n, minsupCount, maxId, l, acc);
      MineUnfold(rt, minsupCount, maxId, l, acc);
      var acc' := Appended(rt, minsupCount, l, acc);
      if |out| >= |out[0]| + 1 {
        AscendingBound(out[0], maxId);
        MineFromCorrect(rt, n, minsupCount, maxId, out, acc');
      } else {
        MineStop(rt, n, minsupCount, maxId, acc', out);
      }
    }
  }

  lemma SeedMinedOk(rt: Index, n: nat, minsupCount: int, maxId: int)
    requires Indexed(rt, n, maxId)
    ensures var s := SeedFrom(rt, minsupCount, maxId, 1, Seeded([], map[], 0));
      |s.large| > 0 ==> MinedOk(rt, n, minsupCount, maxId, Mined([s.large], s.counts, s.num))
  {
    var s := SeedFrom(rt, minsupCount, maxId, 1, Seeded([], map[], 0));
    SeedSpec(rt, minsupCount, maxId);
    SeedCorrect(rt, n, minsupCount, maxId);
    if |s.large| > 0 {
      assert MinedOk(rt, n, minsupCount, maxId, Mined([], map[], 0));
      Extend(rt, n, minsupCount, maxId, Mined([], map[], 0), s.large);
      assert [] + [s.large] == [s.large];
    }
  }

  /** The run finds every frequent itemset that has at most one item more than its last level. */
  lemma RunFromOk(rt: Index, n: nat, minsupCount: int, maxId: int)
    requires Indexed(rt, n, maxId)
    ensures MinedOk(rt, n, minsupCount, maxId, RunFrom(rt, minsupCount, maxId))
    ensures Complete(rt, n, minsupCount, maxId, RunFrom(rt, minsupCount, maxId))
  {
    var s := SeedFrom(rt, minsupCount, maxId, 1, Seeded([], map[], 0));
    SeedSpec(rt, minsupCount, maxId);
    SeedCorrect(rt, n, minsupCount, maxId);
    SeedMinedOk(rt, n, minsupCount, maxId);
    if |s.large| == 0 {
      assert s.counts == map[] && s.num == 0;
      forall c | |c| == 1 ensures !IsFrequentSet(rt, n, minsupCount, maxId, c) {
        assert c !in s.large;
      }
    } else {
      ExactCovered(rt, n, minsupCount, maxId, s.large, 1);
      MineFromCorrect(rt, n, minsupCount, maxId, s.large, Mined([s.large], s.counts, s.num));
    }
  }

  /** No frequent itemset is longer than the levels a complete run found. */
  lemma CompleteBound(rt: Index, n: nat, minsupCount: int, maxId: int, r: Mined, c: seq<int>)
    requires Complete(rt, n, minsupCount, maxId, r)
    requires IsFrequentSet(rt, n, minsupCount, maxId, c)
    ensures |c| <= |r.levels|
  {
    if |c| > |r.levels| {
      FrequentPrefix(rt, n, minsupCount, maxId, c, |r.levels| + 1);
    }
  }

  /**
   * The main theorem. After Run, frequentItemsets[m] is the set of all
   * frequent (m+1)-itemsets in lexicographic order, and no frequent itemset is
   * missing from the levels; frequentItemsetCount maps the key of each frequent
   * itemset to its support and holds no other key; numFrequentItemsets is the
   * number of itemsets in the levels.
   */
  lemma RunCorrect(rt: Index, n: nat, minsupCount: int, maxId: int)
    requires Indexed(rt, n, maxId)
    ensures var r := RunFrom(rt, minsupCount, maxId);
      && (forall m :: 0 <= m < |r.levels| ==> |r.levels[m]| > 0 && IsLevel(r.levels[m], m + 1))
      && (forall c :: IsFrequentSet(rt, n, minsupCount, maxId, c) <==> 1 <= |c| <= |r.levels| && c in r.levels[|c| - 1])
      && (forall c :: IsFrequentSet(rt, n, minsupCount, maxId, c) ==>
            ItemsetsToString(c) in r.counts && r.counts[ItemsetsToString(c)] == Support(rt, c, n))
      && (forall key :: key in r.counts ==> exists c :: IsFrequentSet(rt, n, minsupCount, maxId, c) && ItemsetsToString(c) == key)
      && r.num == Total(r.levels)
  {
    var r := RunFrom(rt, minsupCount, maxId);
    RunFromOk(rt, n, minsupCount, maxId);
    forall c ensures IsFrequentSet(rt, n, minsupCount, maxId, c) <==> 1 <= |c| <= |r.levels| && c in r.levels[|c| - 1] {
      if IsFrequentSet(rt, n, minsupCount, maxId, c) {
        CompleteBound(rt, n, minsupCount, maxId, r, c);
      }
      if 1 <= |c| <= |r.levels| {
        assert ExactLevel(rt, n, minsupCount, maxId, r.levels[|c| - 1], |c|);
      }
    }
    forall c | IsFrequentSet(rt, n, minsupCount, maxId, c)
      ensures ItemsetsToString(c) in r.counts && r.counts[ItemsetsToString(c)] == Support(rt, c, n)
    {
      CompleteBound(rt, n, minsupCount, maxId, r, c);
    }
  }

  /** RunCorrect read at one itemset c. */
  lemma RunFinds(rt: Index, n: nat, minsupCount: int, maxId: int, c: seq<int>)
    requires Indexed(rt, n, maxId)
    ensures var r := RunFrom(rt, minsupCount, maxId);
      && (IsFrequentSet(rt, n, minsupCount, maxId, c) <==> 1 <= |c| <= |r.levels| && c in r.levels[|c| - 1])
      && (IsFrequentSet(rt, n, minsupCount, maxId, c) ==>
            ItemsetsToString(c) in r.counts && r.counts[ItemsetsToString(c)] == Support(rt, c, n))
  {
    RunCorrect(rt, n, minsupCount, maxId);
  }

  /** Lowering minsupCount keeps every itemset the run found, with the same count. */
  lemma RunMonotone(rt: Index, n: nat, m1: int, m2: int, maxId: int)
    requires Indexed(rt, n, maxId) && m2 <= m1
    ensures var r1, r2 := RunFrom(rt, m1, maxId), RunFrom(rt, m2, maxId);
      && |r1.levels| <= |r2.levels|
      && forall c :: 1 <= |c| <= |r1.levels| && c in r1.levels[|c| - 1] ==>
           && c in r2.levels[|c| - 1]
           && ItemsetsToString(c) in r1.counts && ItemsetsToString(c) in r2.counts
           && r2.counts[ItemsetsToString(c)] == r1.counts[ItemsetsToString(c)]
  {
    var r1, r2 := RunFrom(rt, m1, maxId), RunFrom(rt, m2, maxId);
    forall c | 1 <= |c| <= |r1.levels| && c in r1.levels[|c| - 1]
      ensures |c| <= |r2.levels| && c in r2.levels[|c| - 1]
      ensures ItemsetsToString(c) in r1.counts && ItemsetsToString(c) in r2.counts
      ensures r2.counts[ItemsetsToString(c)] == r1.counts[ItemsetsToString(c)]
    {
      RunFinds(rt, n, m1, maxId, c);
      RunFinds(rt, n, m2, maxId, c);
    }
    if |r1.levels| > 0 {
      var k := |r1.levels|;
      RunLevels(rt, n, m1, maxId);
      var c := r1.levels[k - 1][0];
      assert |c| == k && c in r1.levels[|c| - 1];
    }
  }

  /** The levels of a run are non-empty and level m holds (m + 1)-itemsets. */
  lemma RunLevels(rt: Index, n: nat, minsupCount: int, maxId: int)
    requires Indexed(rt, n, maxId)
    ensures var r := RunFrom(rt, minsupCount, maxId);
      forall m :: 0 <= m < |r.levels| ==> |r.levels[m]| > 0 && IsLevel(r.levels[m], m + 1)
  {
    RunCorrect(rt, n, minsupCount, maxId);
  }

  /** With minsupCount equal to the number of transactions, the run finds exactly the itemsets every transaction holds. */
  lemma RunEveryTransaction(rt: Index, n: nat, maxId: int)
    requires Indexed(rt, n, maxId)
    ensures var r := RunFrom(rt, n, maxId);
      forall c :: (1 <= |c| <= |r.levels| && c in r.levels[|c| - 1]) <==>
        (|c| >= 1 && Ascending(c) && ItemsIn(c, maxId) && forall t :: 0 <= t < n ==> Holds(rt, c, t))
  {
    var r := RunFrom(rt, n, maxId);
    forall c: seq<int>
      ensures (1 <= |c| <= |r.levels| && c in r.levels[|c| - 1]) <==>
        (|c| >= 1 && Ascending(c) && ItemsIn(c, maxId) && forall t :: 0 <= t < n ==> Holds(rt, c, t))
    {
      RunFinds(rt, n, n, maxId, c);
      SupportAll(rt, c, n);
    }
  }

  /** With minsupCount 1, the run finds exactly the itemsets some transaction holds. */
  lemma RunOccurring(rt: Index, n: nat, maxId: int)
    requires Indexed(rt, n, maxId)
    ensures var r := RunFrom(rt, 1, maxId);
      forall c :: (1 <= |c| <= |r.levels| && c in r.levels[|c| - 1]) <==>
        (|c| >= 1 && Ascending(c) && ItemsIn(c, maxId) && exists t :: 0 <= t < n && Holds(rt, c, t))
  {
    var r := RunFrom(rt, 1, maxId);
    forall c: seq<int>
      ensures (1 <= |c| <= |r.levels| && c in r.levels[|c| - 1]) <==>
        (|c| >= 1 && Ascending(c) && ItemsIn(c, maxId) && exists t :: 0 <= t < n && Holds(rt, c, t))
    {
      RunFinds(rt, n, 1, maxId, c);
      SupportSome(rt, c, n);
    }
  }

  /**
   * Over the index ReadFile builds from the transactions db, when no
   * transaction repeats an item, the support of an itemset is the number of
   * transactions that contain all of its items.
   */
  lemma IndexSupport(db: Db, c: seq<int>)
    requires NoRepeats(db)
    ensures WellFormed(IndexOf(db), |db|)
    ensures Support(IndexOf(db), c, |db|) == TxSupport(db, c)
  {
    IndexOfWellFormed(db);
    SupportIsScan(db, c);
  }
}
