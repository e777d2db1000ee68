/**
 * The transaction index (the loop of ReadFile in algorithm/algorithm.go) and
 * support counting by sorted-list intersection (itemsetCount).
 *
 * Transactions are numbered 0, 1, ... in read order; the index maps an item
 * to the list of numbers of the transactions that contain it, one entry per
 * occurrence, in the order they were read.
 */
module TransactionIndex {
  import opened Itemsets

  type Db = seq<seq<int>>
  type Index = map<int, seq<int>>

  /** The list of an item, or the empty list when the item has no entry. */
  function Lookup(m: Index, x: int): seq<int>
  {
    if x in m then m[x] else []
  }

  function Repeat(t: int, c: nat): (r: seq<int>)
    ensures |r| == c && forall i :: 0 <= i < c ==> r[i] == t
  {
    if c == 0 then [] else Repeat(t, c - 1) + [t]
  }

  /** The index after pushing transaction number t onto the list of every item in items, in order. */
  function PushAll(m: Index, items: seq<int>, t: int): Index
  {
    if |items| == 0 then m
    else
      var m' := PushAll(m, items[..|items| - 1], t);
      var x := items[|items| - 1];
      m'[x := Lookup(m', x) + [t]]
  }

  /** The index of the transactions db, built one transaction at a time. */
  function IndexOf(db: Db): Index
  {
    if |db| == 0 then map[]
    else PushAll(IndexOf(db[..|db| - 1]), db[|db| - 1], |db| - 1)
  }

  /** The largest item seen after the running maximum acc. */
  function MaxAll(acc: int, items: seq<int>): int
  {
    if |items| == 0 then acc
    else
      var m := MaxAll(acc, items[..|items| - 1]);
      if items[|items| - 1] > m then items[|items| - 1] else m
  }

  /** maxItemID after reading db: starts at 0 and is raised by every larger item. */
  function MaxItemOf(db: Db): int
  {
    if |db| == 0 then 0 else MaxAll(MaxItemOf(db[..|db| - 1]), db[|db| - 1])
  }

  /** Reference definition: t once per occurrence of x in transaction t, for t in order. */
  function Occurrences(db: Db, x: int): seq<int>
  {
    if |db| == 0 then []
    else Occurrences(db[..|db| - 1], x) + Repeat(|db| - 1, multiset(db[|db| - 1])[x])
  }

  lemma {:induction false} PushAllLookup(m: Index, items: seq<int>, t: int, x: int)
    ensures Lookup(PushAll(m, items, t), x) == Lookup(m, x) + Repeat(t, multiset(items)[x])
  {
    if |items| > 0 {
      var init := items[..|items| - 1];
      var y := items[|items| - 1];
      LastCount(items, init, y, x);
      PushAllLookup(m, init, t, x);
      if x == y {
        var c := multiset(init)[x];
        assert Repeat(t, c + 1) == Repeat(t, c) + [t];
      }
    }
  }

  /** Splitting off the last element of a sequence splits its multiplicities the same way. */
  lemma LastCount(items: seq<int>, init: seq<int>, y: int, x: int)
    requires |items| > 0 && init == items[..|items| - 1] && y == items[|items| - 1]
    ensures multiset(items)[x] == multiset(init)[x] + (if x == y then 1 else 0)
  {
    assert items == init + [y];
  }

  lemma {:induction false} PushAllKeys(m: Index, items: seq<int>, t: int, x: int)
    ensures x in PushAll(m, items, t) <==> x in m || x in items
  {
    if |items| > 0 {
      var init := items[..|items| - 1];
      assert items == init + [items[|items| - 1]];
      PushAllKeys(m, init, t, x);
    }
  }

  lemma OccurrencesMembers(db: Db, x: int)
    ensures forall t :: t in Occurrences(db, x) <==> 0 <= t < |db| && x in db[t]
    ensures |Occurrences(db, x)| > 0 <==> exists t :: 0 <= t < |db| && x in db[t]
  {
    if |db| > 0 {
      var init := db[..|db| - 1];
      OccurrencesMembers(init, x);
      assert forall t :: 0 <= t < |init| ==> init[t] == db[t];
      if x in db[|db| - 1] {
        assert Occurrences(db, x)[|Occurrences(db, x)| - 1] == |db| - 1;
      }
      var r := Repeat(|db| - 1, multiset(db[|db| - 1])[x]);
      assert forall t :: t in r ==> t == |db| - 1 by {
        assert forall i :: 0 <= i < |r| ==> r[i] == |db| - 1;
      }
    }
  }

  /**
   * Index correctness: the list of x is exactly Occurrences(db, x), and x has
   * an entry exactly when some transaction contains it.
   */
  lemma {:induction false} IndexOfLookup(db: Db, x: int)
    ensures Lookup(IndexOf(db), x) == Occurrences(db, x)
    ensures x in IndexOf(db) <==> exists t :: 0 <= t < |db| && x in db[t]
  {
    if |db| > 0 {
      var init := db[..|db| - 1];
      IndexOfLookup(init, x);
      PushAllLookup(IndexOf(init), db[|db| - 1], |db| - 1, x);
      PushAllKeys(IndexOf(init), db[|db| - 1], |db| - 1, x);
      OccurrencesMembers(db, x);
      OccurrencesMembers(init, x);
      assert forall t :: 0 <= t < |init| ==> init[t] == db[t];
    }
  }

  /** A transaction that lists each item at most once, as valid input does. */
  predicate Distinct(tx: seq<int>)
  {
    forall i, j :: 0 <= i < j < |tx| ==> tx[i] != tx[j]
  }

  predicate NoRepeats(db: Db)
  {
    forall t :: 0 <= t < |db| ==> Distinct(db[t])
  }

  lemma {:induction false} DistinctMultiplicity(tx: seq<int>, x: int)
    requires Distinct(tx)
    ensures multiset(tx)[x] <= 1
  {
    if |tx| > 0 {
      var init := tx[..|tx| - 1];
      assert tx == init + [tx[|tx| - 1]];
      assert multiset(tx) == multiset(init) + multiset{tx[|tx| - 1]};
      DistinctMultiplicity(init, x);
      if tx[|tx| - 1] == x {
        assert x !in init;
      }
    }
  }

  predicate NonDecreasing(s: seq<int>)
  {
    forall i, j :: 0 <= i < j < |s| ==> s[i] <= s[j]
  }

  /** Appending copies of a number larger than every element keeps a list sorted. */
  lemma AppendLarger(a: seq<int>, v: int, c: nat)
    requires forall i :: 0 <= i < |a| ==> a[i] < v
    ensures NonDecreasing(a) ==> NonDecreasing(a + Repeat(v, c))
    ensures Ascending(a) && c <= 1 ==> Ascending(a + Repeat(v, c))
  {
  }

  /** Occurrence lists never go down, and strictly ascend when no transaction repeats an item. */
  lemma {:induction false} OccurrencesSorted(db: Db, x: int)
    ensures NonDecreasing(Occurrences(db, x))
    ensures NoRepeats(db) ==> Ascending(Occurrences(db, x))
    ensures forall i :: 0 <= i < |Occurrences(db, x)| ==> 0 <= Occurrences(db, x)[i] < |db|
  {
    if |db| > 0 {
      var init := db[..|db| - 1];
      OccurrencesSorted(init, x);
      var c := multiset(db[|db| - 1])[x];
      AppendLarger(Occurrences(init, x), |db| - 1, c);
      assert NoRepeats(db) ==> NoRepeats(init) by {
        assert forall t :: 0 <= t < |init| ==> init[t] == db[t];
      }
      if NoRepeats(db) {
        DistinctMultiplicity(db[|db| - 1], x);
      }
    }
  }

  /** A well-formed index: every list ascends strictly and holds transaction numbers below n. */
  predicate WellFormedList(l: seq<int>, n: nat)
  {
    Ascending(l) && forall i :: 0 <= i < |l| ==> 0 <= l[i] < n
  }

  predicate WellFormed(rt: Index, n: nat)
  {
    forall x {:trigger rt[x]} :: x in rt ==> WellFormedList(rt[x], n)
  }

  lemma WellFormedAt(rt: Index, n: nat, x: int)
    requires WellFormed(rt, n) && x in rt
    ensures WellFormedList(rt[x], n)
  {
  }

  lemma IndexOfWellFormed(db: Db)
    requires NoRepeats(db)
    ensures WellFormed(IndexOf(db), |db|)
  {
    forall x | x in IndexOf(db) ensures WellFormedList(IndexOf(db)[x], |db|) {
      IndexOfLookup(db, x);
      OccurrencesSorted(db, x);
    }
  }

  /** maxItemID is the largest item of db, or 0 when no item is larger than 0. */
  lemma {:induction false} MaxAllBounds(acc: int, items: seq<int>)
    ensures MaxAll(acc, items) >= acc
    ensures forall x :: x in items ==> x <= MaxAll(acc, items)
    ensures MaxAll(acc, items) == acc || MaxAll(acc, items) in items
  {
    if |items| > 0 {
      var init := items[..|items| - 1];
      MaxAllBounds(acc, init);
      assert items == init + [items[|items| - 1]];
    }
  }

  lemma {:induction false} MaxItemOfBounds(db: Db)
    ensures MaxItemOf(db) >= 0
    ensures forall t, x :: 0 <= t < |db| && x in db[t] ==> x <= MaxItemOf(db)
    ensures MaxItemOf(db) == 0 || exists t :: 0 <= t < |db| && MaxItemOf(db) in db[t]
  {
    if |db| > 0 {
      var init := db[..|db| - 1];
      MaxItemOfBounds(init);
      MaxAllBounds(MaxItemOf(init), db[|db| - 1]);
      assert forall t :: 0 <= t < |init| ==> init[t] == db[t];
    }
  }

  // ---------------------------------------------------------------------
  // Support and its computation by intersection

  /** Transaction t holds every item of s, according to the index. */
  predicate Holds(rt: Index, s: seq<int>, t: int)
  {
    forall i :: 0 <= i < |s| ==> s[i] in rt && t in rt[s[i]]
  }

  /** Every item of s has an entry in the index. */
  predicate Covered(rt: Index, s: seq<int>)
  {
    forall i :: 0 <= i < |s| ==> s[i] in rt
  }

  /** Support of s: the number of transactions t < n that hold every item of s. */
  function Support(rt: Index, s: seq<int>, n: nat): nat
  {
    if n == 0 then 0 else Support(rt, s, n - 1) + (if Holds(rt, s, n - 1) then 1 else 0)
  }

  /** Brute-force support over the transactions themselves. */
  function TxSupport(db: Db, s: seq<int>): nat
  {
    if |db| == 0 then 0
    else TxSupport(db[..|db| - 1], s) + (if forall i :: 0 <= i < |s| ==> s[i] in db[|db| - 1] then 1 else 0)
  }

  /** The support read from the index agrees with scanning every transaction. */
  lemma {:induction false} SupportMatchesScan(db: Db, s: seq<int>, n: nat)
    requires n <= |db|
    ensures Support(IndexOf(db), s, n) == TxSupport(db[..n], s)
  {
    if n > 0 {
      SupportMatchesScan(db, s, n - 1);
      assert db[..n][..n - 1] == db[..n - 1];
      var t := n - 1;
      forall i | 0 <= i < |s| ensures (s[i] in IndexOf(db) && t in IndexOf(db)[s[i]]) <==> s[i] in db[t] {
        IndexOfLookup(db, s[i]);
        OccurrencesMembers(db, s[i]);
      }
    }
  }

  lemma SupportIsScan(db: Db, s: seq<int>)
    ensures Support(IndexOf(db), s, |db|) == TxSupport(db, s)
  {
    SupportMatchesScan(db, s, |db|);
    assert db[..|db|] == db;
  }

  /** Support counts at most the n transactions, all of them exactly when every one holds s. */
  lemma {:induction false} SupportAll(rt: Index, s: seq<int>, n: nat)
    ensures Support(rt, s, n) <= n
    ensures Support(rt, s, n) == n <==> forall t :: 0 <= t < n ==> Holds(rt, s, t)
  {
    if n > 0 {
      SupportAll(rt, s, n - 1);
    }
  }

  /** Support is positive exactly when some transaction holds s. */
  lemma {:induction false} SupportSome(rt: Index, s: seq<int>, n: nat)
    ensures Support(rt, s, n) >= 1 <==> exists t :: 0 <= t < n && Holds(rt, s, t)
  {
    if n > 0 {
      SupportSome(rt, s, n - 1);
    }
  }

  /** Anti-monotonicity: a superset is held by no more transactions than a subset. */
  lemma {:induction false} SupportAntiMonotone(rt: Index, s: seq<int>, s': seq<int>, n: nat)
    requires forall i :: 0 <= i < |s| ==> s[i] in s'
    ensures Support(rt, s', n) <= Support(rt, s, n)
  {
    if n > 0 {
      SupportAntiMonotone(rt, s, s', n - 1);
      if Holds(rt, s', n - 1) {
        forall i | 0 <= i < |s| ensures s[i] in rt && n - 1 in rt[s[i]] {
          assert s[i] in s';
          var j :| 0 <= j < |s'| && s'[j] == s[i];
        }
      }
    }
  }

  /**
   * The merge walk of itemsetCount (algorithm/algorithm.go:232-267):
   * equal heads are kept and both advance, otherwise the smaller one advances;
   * it stops when either list runs out.
   */
  function Intersection(xs: seq<int>, ys: seq<int>): seq<int>
    decreases |xs| + |ys|
  {
    if |xs| == 0 || |ys| == 0 then []
    else if xs[0] == ys[0] then [xs[0]] + Intersection(xs[1..], ys[1..])
    else if xs[0] < ys[0] then Intersection(xs[1..], ys)
    else Intersection(xs, ys[1..])
  }

  lemma AscendingTail(s: seq<int>)
    requires Ascending(s) && |s| > 0
    ensures Ascending(s[1..])
    ensures forall t :: t in s[1..] ==> s[0] < t
    ensures forall t :: t in s <==> t == s[0] || t in s[1..]
  {
    assert s == [s[0]] + s[1..];
  }

  lemma AscendingCons(v: int, r: seq<int>)
    requires Ascending(r) && forall t :: t in r ==> v < t
    ensures Ascending([v] + r)
  {
    assert forall i :: 0 <= i < |r| ==> r[i] in r;
  }

  /** On strictly ascending lists the walk yields exactly their common elements, ascending. */
  lemma {:induction false} IntersectionCorrect(xs: seq<int>, ys: seq<int>)
    requires Ascending(xs) && Ascending(ys)
    ensures Ascending(Intersection(xs, ys))
    ensures forall t :: t in Intersection(xs, ys) <==> t in xs && t in ys
    decreases |xs| + |ys|
  {
    if |xs| > 0 && |ys| > 0 {
      AscendingTail(xs);
      AscendingTail(ys);
      if xs[0] == ys[0] {
        IntersectionCorrect(xs[1..], ys[1..]);
        AscendingCons(xs[0], Intersection(xs[1..], ys[1..]));
      } else if xs[0] < ys[0] {
        IntersectionCorrect(xs[1..], ys);
      } else {
        IntersectionCorrect(xs, ys[1..]);
      }
    }
  }

  /** Intersecting the running list with the lists of s[i], s[i+1], ... in turn (lines 228-271). */
  function Chain(rt: Index, acc: seq<int>, s: seq<int>, i: nat): seq<int>
    requires Covered(rt, s)
    decreases |s| - i
  {
    if i >= |s| then acc else Chain(rt, Intersection(acc, rt[s[i]]), s, i + 1)
  }

  /** What itemsetCount returns: the list length of a single item, else the length of the chain. */
  function SupportByIntersection(rt: Index, s: seq<int>): int
    requires |s| >= 1 && Covered(rt, s)
  {
    if |s| == 1 then |rt[s[0]]| else |Chain(rt, rt[s[0]], s, 1)|
  }

  lemma {:induction false} ChainCorrect(rt: Index, n: nat, acc: seq<int>, s: seq<int>, i: nat)
    requires WellFormed(rt, n) && Covered(rt, s)
    requires 1 <= i <= |s|
    requires Ascending(acc)
    requires forall t :: t in acc <==> 0 <= t < n && Holds(rt, s[..i], t)
    ensures Ascending(Chain(rt, acc, s, i))
    ensures forall t :: t in Chain(rt, acc, s, i) <==> 0 <= t < n && Holds(rt, s, t)
    decreases |s| - i
  {
    if i >= |s| {
      assert s[..i] == s;
    } else {
      var ys := rt[s[i]];
      WellFormedAt(rt, n, s[i]);
      IntersectionCorrect(acc, ys);
      var acc' := Intersection(acc, ys);
      forall t ensures t in acc' <==> 0 <= t < n && Holds(rt, s[..i + 1], t) {
        HoldsSnoc(rt, s, i, t);
        assert t in ys ==> 0 <= t < n by {
          if t in ys {
            var k :| 0 <= k < |ys| && ys[k] == t;
          }
        }
      }
      ChainCorrect(rt, n, acc', s, i + 1);
    }
  }

  lemma HoldsSnoc(rt: Index, s: seq<int>, i: nat, t: int)
    requires i < |s|
    ensures Holds(rt, s[..i + 1], t) <==> Holds(rt, s[..i], t) && s[i] in rt && t in rt[s[i]]
  {
    assert forall k :: 0 <= k < i ==> s[..i + 1][k] == s[..i][k];
  }

  lemma HeadIsMember(l: seq<int>)
    ensures |l| > 0 ==> l[0] in l
  {
  }

  /** The largest element of a strictly ascending list is its last; dropping it removes exactly that value. */
  lemma SplitLast(l: seq<int>, v: int)
    requires Ascending(l) && v in l && forall t :: t in l ==> t <= v
    ensures |l| > 0 && l[|l| - 1] == v
    ensures Ascending(l[..|l| - 1])
    ensures forall t :: t in l[..|l| - 1] <==> t in l && t != v
  {
    var last := |l| - 1;
    var k :| 0 <= k < |l| && l[k] == v;
    assert l[last] in l;
    assert l[last] == v;
    forall t ensures t in l[..last] <==> t in l && t != v {
      if t in l[..last] {
        var m :| 0 <= m < last && l[..last][m] == t;
        assert l[m] < l[last];
      }
      if t in l && t != v {
        var m :| 0 <= m < |l| && l[m] == t;
        assert m != last && l[..last][m] == t;
      }
    }
  }

  /** A strictly ascending list of exactly the transactions below n that hold s has Support many entries. */
  lemma {:induction false} CountByList(rt: Index, s: seq<int>, n: nat, l: seq<int>)
    requires Ascending(l)
    requires forall t :: t in l <==> 0 <= t < n && Holds(rt, s, t)
    ensures |l| == Support(rt, s, n)
  {
    if n == 0 {
      HeadIsMember(l);
    } else if Holds(rt, s, n - 1) {
      SplitLast(l, n - 1);
      var init := l[..|l| - 1];
      forall t ensures t in init <==> 0 <= t < n - 1 && Holds(rt, s, t) {
        assert t in init <==> t in l && t != n - 1;
      }
      CountByList(rt, s, n - 1, init);
    } else {
      CountByList(rt, s, n - 1, l);
    }
  }

  /** itemsetCount computes the support of an itemset over a well-formed index. */
  lemma SupportByIntersectionCorrect(rt: Index, n: nat, s: seq<int>)
    requires WellFormed(rt, n)
    requires |s| >= 1 && Covered(rt, s)
    ensures SupportByIntersection(rt, s) == Support(rt, s, n)
  {
    var first := rt[s[0]];
    WellFormedAt(rt, n, s[0]);
    forall t ensures t in first <==> 0 <= t < n && Holds(rt, s[..1], t) {
      assert s[..1] == [s[0]];
      if t in first {
        var k :| 0 <= k < |first| && first[k] == t;
      }
    }
    if |s| == 1 {
      assert s == s[..1];
      CountByList(rt, s, n, first);
    } else {
      ChainCorrect(rt, n, first, s, 1);
      CountByList(rt, s, n, Chain(rt, first, s, 1));
    }
  }

  /** The merge loop of itemsetCount, building a new list. */
  method Intersect(xs: seq<int>, ys: seq<int>) returns (r: seq<int>)
    ensures r == Intersection(xs, ys)
    ensures Ascending(xs) && Ascending(ys) ==> Ascending(r) && forall t :: t in r <==> t in xs && t in ys
  {
    r := [];
    var i1, i2 := 0, 0;
    while i1 < |xs| && i2 < |ys|
      invariant 0 <= i1 <= |xs| && 0 <= i2 <= |ys|
      invariant r + Intersection(xs[i1..], ys[i2..]) == Intersection(xs, ys)
      decreases |xs| - i1 + |ys| - i2
    {
      var oneID, twoID := xs[i1], ys[i2];
      assert xs[i1..][1..] == xs[i1 + 1..] && ys[i2..][1..] == ys[i2 + 1..];
      if oneID == twoID {
        r := r + [oneID];
        i1, i2 := i1 + 1, i2 + 1;
      } else if oneID < twoID {
        i1 := i1 + 1;
      } else {
        i2 := i2 + 1;
      }
    }
    if Ascending(xs) && Ascending(ys) {
      IntersectionCorrect(xs, ys);
    }
  }
}
