/**
 * The Apriori object of package algorithm (algorithm/algorithm.go:16-190,
 * 219-274) as a class whose methods update its fields in place. Go's nil map
 * for relatedTransactions is the flag hasIndex; the linked lists of the source
 * are sequences.
 */
module Algorithm {
  import opened Keys
  import opened Itemsets
  import opened TransactionIndex
  import opened Candidates
  import opened Mining
  import opened Reading
  import opened Correctness

  datatype Option<T> = None | Some(value: T)

  /** The fields of an Apriori object that mining leaves alone. */
  datatype Config = Config(index: Index, hasIndex: bool, minsup: real, minsupCount: int, fileName: string, maxItemID: int, lenOfDB: nat)

  /** math.Ceil on the reals: the least integer not below x. */
  function Ceil(x: real): (r: int)
    ensures (r - 1) as real < x <= r as real
  {
    if x.Floor as real == x then x.Floor else x.Floor + 1
  }

  /**
   * minsupCount is the threshold of relative support: a count reaches
   * Ceil(lenOfDB * minsup) exactly when count / lenOfDB reaches minsup.
   */
  lemma CeilThreshold(x: real, count: int)
    ensures count >= Ceil(x) <==> count as real >= x
  {
  }

  /**
   * Lowering minsup never raises minsupCount: with the same lenOfDB, a
   * smaller fraction gives a threshold no larger.
   */
  lemma CeilMonotone(n: nat, minsup1: real, minsup2: real)
    requires minsup1 <= minsup2
    ensures Ceil(n as real * minsup1) <= Ceil(n as real * minsup2)
  {
    assert n as real * minsup1 <= n as real * minsup2;
    CeilThreshold(n as real * minsup1, Ceil(n as real * minsup2));
  }

  class Apriori {
    var relatedTransactions: Index
    /** relatedTransactions != nil: set by ReadFile. */
    var hasIndex: bool
    var frequentItemsetCount: Counts
    var frequentItemsets: seq<Level>
    var numFrequentItemsets: int
    var minsup: real
    var minsupCount: int
    var fileName: string
    var maxItemID: int
    var lenOfDB: nat

    /** New (lines 29-31): every field at its zero value. */
    constructor New()
      ensures relatedTransactions == map[] && !hasIndex
      ensures frequentItemsetCount == map[] && frequentItemsets == [] && numFrequentItemsets == 0
      ensures minsup == 0.0 && minsupCount == 0 && fileName == "" && maxItemID == 0 && lenOfDB == 0
    {
      relatedTransactions := map[];
      hasIndex := false;
      frequentItemsetCount := map[];
      frequentItemsets := [];
      numFrequentItemsets := 0;
      minsup := 0.0;
      minsupCount := 0;
      fileName := "";
      maxItemID := 0;
      lenOfDB := 0;
    }

    /**
     * ReadFile (lines 37-83). content is the file split into lines and fields,
     * or None when it cannot be opened. Transaction t (the t-th line) is pushed
     * onto the list of each of its items; maxItemID is the largest value read;
     * lenOfDB counts the lines read. On a rejected field the method stops with
     * an error, keeping what it had built up to that field.
     */
    method ReadFile(file: string, content: Option<seq<seq<Token>>>) returns (err: bool)
      modifies this
      ensures fileName == file && hasIndex
      ensures content.None? ==> err && relatedTransactions == map[] && maxItemID == 0 && lenOfDB == 0
      ensures content.Some? && AllClean(content.value) ==>
        && !err
        && relatedTransactions == IndexOf(Items(content.value))
        && maxItemID == MaxItemOf(Items(content.value))
        && lenOfDB == |content.value|
      ensures content.Some? && !AllClean(content.value) ==>
        var lines := content.value;
        var t := FirstBadLine(lines);
        var p := FirstBad(lines[t]);
        && err
        && relatedTransactions == PushAll(IndexOf(Items(lines[..t])), Vals(lines[t][..p]), t)
        && maxItemID == MaxAll(MaxItemOf(Items(lines[..t])), Vals(lines[t][..p + 1]))
        && lenOfDB == t
      ensures frequentItemsetCount == old(frequentItemsetCount) && frequentItemsets == old(frequentItemsets)
      ensures numFrequentItemsets == old(numFrequentItemsets) && minsup == old(minsup) && minsupCount == old(minsupCount)
    {
      fileName := file;
      relatedTransactions := map[];
      hasIndex := true;
      maxItemID := 0;
      lenOfDB := 0;
      if content.None? {
        return true;
      }
      var lines := content.value;
      var t := 0;
      while t < |lines|
        invariant 0 <= t <= |lines| && lenOfDB == t && AllClean(lines[..t])
        invariant relatedTransactions == IndexOf(Items(lines[..t]))
        invariant maxItemID == MaxItemOf(Items(lines[..t]))
        invariant fileName == file && hasIndex
        invariant frequentItemsetCount == old(frequentItemsetCount) && frequentItemsets == old(frequentItemsets)
        invariant numFrequentItemsets == old(numFrequentItemsets) && minsup == old(minsup) && minsupCount == old(minsupCount)
      {
        var stringArray := lines[t];
        ghost var before, maxBefore := relatedTransactions, maxItemID;
        var p := 0;
        while p < |stringArray|
          invariant 0 <= p <= |stringArray| && Clean(stringArray[..p])
          invariant relatedTransactions == PushAll(before, Vals(stringArray[..p]), t)
          invariant maxItemID == MaxAll(maxBefore, Vals(stringArray[..p]))
          invariant lenOfDB == t && fileName == file && hasIndex
          invariant frequentItemsetCount == old(frequentItemsetCount) && frequentItemsets == old(frequentItemsets)
          invariant numFrequentItemsets == old(numFrequentItemsets) && minsup == old(minsup) && minsupCount == old(minsupCount)
        {
          var intValue := stringArray[p].v;
          ReadField(before, maxBefore, stringArray, p, t);
          if intValue > maxItemID {
            maxItemID := intValue;
          }
          if stringArray[p].Bad? {
            FirstBadIs(stringArray, p);
            FirstBadLineIs(lines, t);
            assert FirstBad(lines[FirstBadLine(lines)]) == p;
            return true;
          }
          var transactionList := Lookup(relatedTransactions, intValue);
          relatedTransactions := relatedTransactions[intValue := transactionList + [lenOfDB]];
          p := p + 1;
        }
        assert stringArray[..p] == stringArray;
        ReadLine(lines, t);
        lenOfDB := lenOfDB + 1;
        t := t + 1;
      }
      assert lines[..t] == lines;
      return false;
    }

    /** SetMinsup (lines 85-90): only once the index exists; minsupCount = ceil(lenOfDB * minsup). */
    method SetMinsup(minsup: real)
      modifies this
      ensures old(hasIndex) ==> this.minsup == minsup && minsupCount == Ceil(lenOfDB as real * minsup)
      ensures !old(hasIndex) ==> this.minsup == old(this.minsup) && minsupCount == old(minsupCount)
      ensures relatedTransactions == old(relatedTransactions) && hasIndex == old(hasIndex) && lenOfDB == old(lenOfDB)
      ensures maxItemID == old(maxItemID) && fileName == old(fileName)
      ensures frequentItemsetCount == old(frequentItemsetCount) && frequentItemsets == old(frequentItemsets)
      ensures numFrequentItemsets == old(numFrequentItemsets)
    {
      if hasIndex {
        this.minsup := minsup;
        minsupCount := Ceil(lenOfDB as real * minsup);
      }
    }

    /** GetMinsup (lines 92-94). */
    function GetMinsup(): (r: real)
      reads this
      ensures r == minsup
    {
      minsup
    }

    /** GetFrequentItemsets (lines 96-98). */
    function GetFrequentItemsets(): (r: seq<Level>)
      reads this
      ensures r == frequentItemsets
    {
      frequentItemsets
    }

    /** GetFrequentItemsetsCount (lines 100-102). */
    function GetFrequentItemsetsCount(): (r: Counts)
      reads this
      ensures r == frequentItemsetCount
    {
      frequentItemsetCount
    }

    /** GetLenOfDB (lines 104-106). */
    function GetLenOfDB(): (r: int)
      reads this
      ensures r == lenOfDB
    {
      lenOfDB
    }

    /** GetNumItems (lines 108-110): the number of items with a list. */
    function GetNumItems(): (r: nat)
      reads this
      ensures r == |relatedTransactions.Keys|
    {
      |relatedTransactions|
    }

    /** GetNumFrequentItemsets (lines 112-114). */
    function GetNumFrequentItemsets(): (r: int)
      reads this
      ensures r == numFrequentItemsets
    {
      numFrequentItemsets
    }

    /** GetMinsupCount (lines 116-118). */
    function GetMinsupCount(): (r: int)
      reads this
      ensures r == minsupCount
    {
      minsupCount
    }

    /**
     * itemsetCount (lines 219-274): the list of the first item, intersected
     * with the list of each further item in turn; the length of the result.
     */
    method ItemsetCount(itemset: seq<int>) returns (r: int)
      requires |itemset| >= 1 && Covered(relatedTransactions, itemset)
      ensures r == SupportByIntersection(relatedTransactions, itemset)
    {
      var firstTransactions := relatedTransactions[itemset[0]];
      if |itemset| == 1 {
        return |firstTransactions|;
      }
      var itemsetTransactions: seq<int> := [];
      var i := 1;
      while i < |itemset|
        invariant 1 <= i <= |itemset|
        invariant Chain(relatedTransactions, firstTransactions, itemset, i) == Chain(relatedTransactions, relatedTransactions[itemset[0]], itemset, 1)
        invariant i > 1 ==> itemsetTransactions == firstTransactions
      {
        var secondTransactions := relatedTransactions[itemset[i]];
        itemsetTransactions := Intersect(firstTransactions, secondTransactions);
        firstTransactions := itemsetTransactions;
        i := i + 1;
      }
      return |itemsetTransactions|;
    }

    /** The fields mining reads but does not write: the index, the thresholds and what ReadFile found. */
    function Settings(): Config
      reads this
    {
      Config(relatedTransactions, hasIndex, minsup, minsupCount, fileName, maxItemID, lenOfDB)
    }

    /**
     * One turn of the inner loop of nextLevelLargeItemsets (lines 157-178):
     * itemsets i and j merged, the candidate counted, and the candidate
     * checked against the index once every one of its k-subsets produced it.
     */
    method MergeStep(l: Level, i: int, j: int, cand: Counts, out: Level) returns (cand': Counts, out': Level)
      requires Ready(relatedTransactions, l) && 0 <= i < j < |l|
      modifies this
      ensures Pass(cand', out', frequentItemsetCount, numFrequentItemsets) ==
        Step(old(relatedTransactions), old(minsupCount), l, i, j, Pass(cand, out, old(frequentItemsetCount), old(numFrequentItemsets)))
      ensures Settings() == old(Settings()) && frequentItemsets == old(frequentItemsets)
    {
      ghost var st := Pass(cand, out, frequentItemsetCount, numFrequentItemsets);
      cand', out' := cand, out;
      var oneItemset, twoItemset := l[i], l[j];
      LevelDistinct(l, |l[0]|, i, j);
      var threeItemset := new int[|oneItemset| + 1];
      var merged := MergeItemsets(oneItemset, twoItemset, threeItemset);
      if merged {
        var c := threeItemset[..];
        var itemsetsString := ItemsetsToString(c);
        var count := Get(cand, itemsetsString);
        count := count + 1;
        if count == |oneItemset| {
          StepChecked(relatedTransactions, minsupCount, l, i, j, st, itemsetsString);
          var freqCount := ItemsetCount(c);
          if freqCount >= minsupCount {
            numFrequentItemsets := numFrequentItemsets + 1;
            out' := out + [c];
            frequentItemsetCount := frequentItemsetCount[ItemsetsToString(c) := freqCount];
          }
        } else {
          StepCounted(relatedTransactions, minsupCount, l, i, j, st, itemsetsString);
          cand' := cand[itemsetsString := count];
        }
      } else {
        StepUnmerged(relatedTransactions, minsupCount, l, i, j, st);
      }
    }

    /**
     * The inner loop of nextLevelLargeItemsets (lines 153-179): itemset i of
     * the level merged with each later itemset j in turn.
     */
    method MergeRow(l: Level, i: int, cand: Counts, out: Level) returns (cand': Counts, out': Level)
      requires Ready(relatedTransactions, l) && 0 <= i && i + 1 < |l|
      modifies this
      ensures Pass(cand', out', frequentItemsetCount, numFrequentItemsets) ==
        RowFrom(old(relatedTransactions), old(minsupCount), l, i, i + 1, Pass(cand, out, old(frequentItemsetCount), old(numFrequentItemsets)))
      ensures Settings() == old(Settings()) && frequentItemsets == old(frequentItemsets)
    {
      ghost var rt, ms := relatedTransactions, minsupCount;
      ghost var target := RowFrom(rt, ms, l, i, i + 1, Pass(cand, out, frequentItemsetCount, numFrequentItemsets));
      var candidateItemsets, newLargeItemsets := cand, out;
      var j := i + 1;
      while j < |l|
        invariant i < j <= |l| && Settings() == old(Settings()) && relatedTransactions == rt && minsupCount == ms
        invariant frequentItemsets == old(frequentItemsets)
        invariant RowFrom(rt, ms, l, i, j, Pass(candidateItemsets, newLargeItemsets, frequentItemsetCount, numFrequentItemsets)) == target
      {
        candidateItemsets, newLargeItemsets := MergeStep(l, i, j, candidateItemsets, newLargeItemsets);
        j := j + 1;
      }
      return candidateItemsets, newLargeItemsets;
    }

    /**
     * The pass of nextLevelLargeItemsets (lines 148-182): every pair i < j of
     * the level merged, the new level collected in order.
     */
    method MergeLevel(l: Level) returns (newLargeItemsets: Level)
      requires Ready(relatedTransactions, l)
      modifies this
      ensures var st := NextLevel(old(relatedTransactions), old(minsupCount), l, old(frequentItemsetCount), old(numFrequentItemsets));
        newLargeItemsets == st.out && frequentItemsetCount == st.counts && numFrequentItemsets == st.num
      ensures Settings() == old(Settings()) && frequentItemsets == old(frequentItemsets)
    {
      ghost var rt, ms := relatedTransactions, minsupCount;
      ghost var target := NextLevel(rt, ms, l, frequentItemsetCount, numFrequentItemsets);
      newLargeItemsets := [];
      var candidateItemsets: Counts := map[];
      var i := 0;
      while i + 1 < |l|
        invariant 0 <= i < |l| && Settings() == old(Settings()) && relatedTransactions == rt && minsupCount == ms
        invariant frequentItemsets == old(frequentItemsets)
        invariant PassFrom(rt, ms, l, i, i + 1, Pass(candidateItemsets, newLargeItemsets, frequentItemsetCount, numFrequentItemsets)) == target
      {
        PassFromRow(rt, ms, l, i, i + 1, Pass(candidateItemsets, newLargeItemsets, frequentItemsetCount, numFrequentItemsets));
        candidateItemsets, newLargeItemsets := MergeRow(l, i, candidateItemsets, newLargeItemsets);
        i := i + 1;
      }
      PassFromRowEnd(rt, ms, l, i, Pass(candidateItemsets, newLargeItemsets, frequentItemsetCount, numFrequentItemsets));
    }

    /**
     * nextLevelLargeItemsets (lines 147-190): one pass over the pairs of the
     * level, appending the new level when it is not empty and going on from it
     * when it has at least k + 2 itemsets.
     */
    method NextLevelLargeItemsets(largeItemsets: Level)
      requires Ready(relatedTransactions, largeItemsets) && InRange(largeItemsets, maxItemID)
      modifies this
      ensures var r := MineFrom(old(relatedTransactions), old(minsupCount), old(maxItemID), largeItemsets,
                                old(Mined(frequentItemsets, frequentItemsetCount, numFrequentItemsets)));
        frequentItemsets == r.levels && frequentItemsetCount == r.counts && numFrequentItemsets == r.num
      ensures Settings() == old(Settings())
      decreases maxItemID - |largeItemsets[0]|
    {
      ghost var acc0 := Mined(frequentItemsets, frequentItemsetCount, numFrequentItemsets);
      MineFromStep(relatedTransactions, minsupCount, maxItemID, largeItemsets, acc0);
      var newLargeItemsets := MergeLevel(largeItemsets);
      if |newLargeItemsets| != 0 {
        frequentItemsets := frequentItemsets + [newLargeItemsets];
        if |newLargeItemsets| >= |newLargeItemsets[0]| + 1 {
          AscendingBound(newLargeItemsets[0], maxItemID);
          NextLevelLargeItemsets(newLargeItemsets);
        }
      }
    }

    /**
     * Run (lines 120-145): when there are transactions and a minimum support,
     * start afresh, find the frequent 1-itemsets among the ids 1..maxItemID
     * and mine on from them. Over an index without repeated entries the
     * result is every frequent itemset, level by level, with its support.
     */
    method Run()
      requires lenOfDB != 0 && minsup != 0.0 ==> AllIdsIndexed(relatedTransactions, maxItemID)
      modifies this
      ensures old(lenOfDB != 0 && minsup != 0.0) ==>
        var r := RunFrom(old(relatedTransactions), old(minsupCount), old(maxItemID));
        frequentItemsets == r.levels && frequentItemsetCount == r.counts && numFrequentItemsets == r.num
      ensures lenOfDB != 0 && minsup != 0.0 && WellFormed(relatedTransactions, lenOfDB) ==>
        && (forall c :: IsFrequentSet(relatedTransactions, lenOfDB, minsupCount, maxItemID, c) <==>
              1 <= |c| <= |frequentItemsets| && c in frequentItemsets[|c| - 1])
        && (forall c :: IsFrequentSet(relatedTransactions, lenOfDB, minsupCount, maxItemID, c) ==>
              ItemsetsToString(c) in frequentItemsetCount &&
              frequentItemsetCount[ItemsetsToString(c)] == Support(relatedTransactions, c, lenOfDB))
        && numFrequentItemsets == Total(frequentItemsets)
      ensures !(lenOfDB != 0 && minsup != 0.0) ==>
        frequentItemsets == old(frequentItemsets) && frequentItemsetCount == old(frequentItemsetCount) &&
        numFrequentItemsets == old(numFrequentItemsets)
      ensures Settings() == old(Settings())
    {
      if lenOfDB != 0 && minsup != 0.0 {
        frequentItemsetCount := map[];
        frequentItemsets := [];
        numFrequentItemsets := 0;
        ghost var rt, ms, maxId := relatedTransactions, minsupCount, maxItemID;
        ghost var seeded := SeedFrom(rt, ms, maxId, 1, Seeded([], map[], 0));
        var largeItemsets: Level := [];
        var i := 1;
        while i <= maxItemID
          invariant 1 <= i && (i <= maxItemID + 1 || i == 1) && frequentItemsets == []
          invariant Settings() == old(Settings()) && relatedTransactions == rt && minsupCount == ms && maxItemID == maxId
          invariant SeedFrom(rt, ms, maxId, i, Seeded(largeItemsets, frequentItemsetCount, numFrequentItemsets)) == seeded
          decreases maxItemID + 1 - i
        {
          var value := relatedTransactions[i];
          if |value| >= minsupCount {
            numFrequentItemsets := numFrequentItemsets + 1;
            largeItemsets := largeItemsets + [[i]];
            frequentItemsetCount := frequentItemsetCount[Itoa(i) := |value|];
          }
          i := i + 1;
        }
        SeedSpec(rt, ms, maxId);
        assert Seeded(largeItemsets, frequentItemsetCount, numFrequentItemsets) == seeded;
        ghost var counts1, num1 := frequentItemsetCount, numFrequentItemsets;
        if |largeItemsets| != 0 {
          frequentItemsets := frequentItemsets + [largeItemsets];
          assert frequentItemsets == [largeItemsets];
          NextLevelLargeItemsets(largeItemsets);
          assert RunFrom(rt, ms, maxId) == MineFrom(rt, ms, maxId, largeItemsets, Mined([largeItemsets], counts1, num1));
        }
        if WellFormed(rt, lenOfDB) {
          RunCorrect(rt, lenOfDB, ms, maxId);
        }
      }
    }
  }
}
