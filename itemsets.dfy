/**
 * Itemsets and the pairwise merge of candidate generation (mergeItemsets in
 * algorithm/algorithm.go).
 *
 * An itemset is a strictly ascending sequence of item ids. Levels are kept in
 * lexicographic order. The merge of two itemsets of the same length k walks
 * both with two indices and allows exactly one element of the first itemset
 * to be skipped; it succeeds exactly when the second itemset is the first one
 * with one element dropped and a larger last element appended.
 */
module Itemsets {

  /** Strictly ascending: the form every itemset of the miner has. */
  predicate Ascending(s: seq<int>)
  {
    forall i, j :: 0 <= i < j < |s| ==> s[i] < s[j]
  }

  /** The first position at which two distinct sequences of equal length differ. */
  function FirstDiff(a: seq<int>, b: seq<int>): (p: nat)
    requires |a| == |b| && a != b
    ensures p < |a| && a[p] != b[p]
    ensures forall i :: 0 <= i < p ==> a[i] == b[i]
  {
    if a[0] != b[0] then 0
    else
      assert a == [a[0]] + a[1..] && b == [b[0]] + b[1..];
      1 + FirstDiff(a[1..], b[1..])
  }

  lemma FirstDiffUnique(a: seq<int>, b: seq<int>, p: nat)
    requires |a| == |b| && p < |a|
    requires forall i :: 0 <= i < p ==> a[i] == b[i]
    requires a[p] != b[p]
    ensures a != b && FirstDiff(a, b) == p
  {
    assert a[p] != b[p];
  }

  /** Lexicographic order on itemsets of the same length. */
  predicate LexLess(a: seq<int>, b: seq<int>)
  {
    |a| == |b| && |a| > 0 && (a[0] < b[0] || (a[0] == b[0] && LexLess(a[1..], b[1..])))
  }

  /** Sequences equal before p and ordered at p are lexicographically ordered. */
  lemma {:induction false} LexLessAt(a: seq<int>, b: seq<int>, p: nat)
    requires |a| == |b| && p < |a|
    requires forall i :: 0 <= i < p ==> a[i] == b[i]
    requires a[p] < b[p]
    ensures LexLess(a, b)
  {
    if p > 0 {
      LexLessAt(a[1..], b[1..], p - 1);
    }
  }

  /** A lexicographically smaller sequence is a different one, smaller at the first difference. */
  lemma {:induction false} LexLessFirstDiff(a: seq<int>, b: seq<int>)
    requires LexLess(a, b)
    ensures a != b && a[FirstDiff(a, b)] < b[FirstDiff(a, b)]
  {
    if a[0] == b[0] {
      LexLessFirstDiff(a[1..], b[1..]);
      assert a[1..] != b[1..];
    }
  }

  lemma {:induction false} LexLessAsymmetric(a: seq<int>, b: seq<int>)
    requires LexLess(a, b)
    ensures !LexLess(b, a)
  {
    if a[0] == b[0] {
      LexLessAsymmetric(a[1..], b[1..]);
    }
  }

  lemma {:induction false} LexLessIrreflexive(a: seq<int>)
    ensures !LexLess(a, a)
  {
    if |a| > 0 {
      LexLessIrreflexive(a[1..]);
    }
  }

  lemma {:induction false} LexLessTransitive(a: seq<int>, b: seq<int>, c: seq<int>)
    requires LexLess(a, b) && LexLess(b, c)
    ensures LexLess(a, c)
  {
    if a[0] == b[0] && b[0] == c[0] {
      LexLessTransitive(a[1..], b[1..], c[1..]);
    }
  }

  /** Itemsets that agree on their first k items compare as their remaining items do. */
  lemma LexLessExtend(a: seq<int>, b: seq<int>, k: nat)
    requires |a| == |b| && k <= |a|
    requires LexLess(a[..k], b[..k])
    ensures LexLess(a, b)
  {
    LexLessFirstDiff(a[..k], b[..k]);
    var p := FirstDiff(a[..k], b[..k]);
    assert forall i :: 0 <= i <= p ==> a[i] == a[..k][i] && b[i] == b[..k][i];
    LexLessAt(a, b, p);
  }

  /** The itemset with the element at position p left out. */
  function Remove(s: seq<int>, p: nat): (r: seq<int>)
    requires p < |s|
    ensures |r| == |s| - 1
    ensures forall i :: 0 <= i < p ==> r[i] == s[i]
    ensures forall i :: p <= i < |r| ==> r[i] == s[i + 1]
  {
    s[..p] + s[p + 1..]
  }

  lemma RemoveFirst(s: seq<int>)
    requires |s| > 0
    ensures Remove(s, 0) == s[1..]
  {
    assert s[..0] + s[1..] == s[1..];
  }

  lemma RemoveAscending(s: seq<int>, p: nat)
    requires Ascending(s) && p < |s|
    ensures Ascending(Remove(s, p))
    ensures forall x :: x in Remove(s, p) ==> x in s
  {
    var r := Remove(s, p);
    forall x | x in r ensures x in s {
      var i :| 0 <= i < |r| && r[i] == x;
      if i < p { assert s[i] == x; } else { assert s[i + 1] == x; }
    }
  }

  /** Dropping a later element gives a lexicographically smaller itemset. */
  lemma RemoveOrder(s: seq<int>, p: nat, q: nat)
    requires Ascending(s) && p < q < |s|
    ensures LexLess(Remove(s, q), Remove(s, p))
  {
    var a, b := Remove(s, q), Remove(s, p);
    LexLessAt(a, b, p);
  }

  /**
   * mergeItemsets succeeds on (one, two) when, at their first difference p,
   * one[p] < two[p] and the rest of one equals two shifted by one.
   */
  predicate MergeOk(one: seq<int>, two: seq<int>)
    requires |one| == |two| && one != two
  {
    var p := FirstDiff(one, two);
    one[p] < two[p] && forall i :: p < i < |one| ==> one[i] == two[i - 1]
  }

  /** The merged itemset: one followed by the last element of two. */
  function Merged(one: seq<int>, two: seq<int>): seq<int>
    requires |two| >= 1
  {
    one + [two[|two| - 1]]
  }

  /**
   * A successful merge of two k-itemsets yields a (k+1)-itemset whose first k
   * items are one, which drops back to two by leaving out position
   * FirstDiff(one, two), and which is ascending when both inputs are.
   */
  lemma MergeShape(one: seq<int>, two: seq<int>)
    requires |one| == |two| && one != two && MergeOk(one, two)
    ensures |Merged(one, two)| == |one| + 1
    ensures Merged(one, two)[..|one|] == one
    ensures Merged(one, two)[|one|] == two[|two| - 1]
    ensures Remove(Merged(one, two), FirstDiff(one, two)) == two
    ensures LexLess(one, two)
    ensures Ascending(one) && Ascending(two) ==> Ascending(Merged(one, two))
    ensures forall x :: x in two ==> x in Merged(one, two)
  {
    var k, p, c := |one|, FirstDiff(one, two), Merged(one, two);
    assert c[..k] == one;
    MergeRemove(one, two);
    LexLessAt(one, two, p);
    if Ascending(one) && Ascending(two) {
      MergeAscending(one, two);
    }
    forall x | x in two ensures x in c {
      var i :| 0 <= i < k && two[i] == x;
      if i < p { assert c[i] == x; } else { assert c[i + 1] == x; }
    }
  }

  lemma MergeRemove(one: seq<int>, two: seq<int>)
    requires |one| == |two| && one != two && MergeOk(one, two)
    ensures Remove(Merged(one, two), FirstDiff(one, two)) == two
  {
    var k, p, c := |one|, FirstDiff(one, two), Merged(one, two);
    var r := Remove(c, p);
    assert forall i :: 0 <= i < k ==> r[i] == two[i];
  }

  lemma MergeAscending(one: seq<int>, two: seq<int>)
    requires |one| == |two| && one != two && MergeOk(one, two)
    requires Ascending(one) && Ascending(two)
    ensures Ascending(Merged(one, two))
  {
    var k, p := |one|, FirstDiff(one, two);
    assert one[k - 1] < two[k - 1] by {
      if p < k - 1 {
        assert one[k - 1] == two[k - 2];
      }
    }
  }

  /**
   * Every ascending (k+1)-itemset c is produced by merging c without its last
   * item with c without item p, for each p < k; these are its k producing pairs.
   */
  lemma MergeOfRemovals(c: seq<int>, p: nat)
    requires Ascending(c) && p < |c| - 1
    ensures Remove(c, |c| - 1) == c[..|c| - 1]
    ensures Remove(c, |c| - 1) != Remove(c, p)
    ensures FirstDiff(Remove(c, |c| - 1), Remove(c, p)) == p
    ensures MergeOk(Remove(c, |c| - 1), Remove(c, p))
    ensures Merged(Remove(c, |c| - 1), Remove(c, p)) == c
  {
    var k := |c| - 1;
    var a, b := Remove(c, k), Remove(c, p);
    assert a == c[..k];
    FirstDiffUnique(a, b, p);
    assert Merged(a, b) == c;
  }

  /**
   * mergeItemsets (algorithm/algorithm.go:192-217): fills newItemset in place
   * and reports whether the merge succeeded. The callers pass itemsets of the
   * same length that are different: with one == two the source reads two[len]
   * out of range.
   */
  method MergeItemsets(one: seq<int>, two: seq<int>, newItemset: array<int>) returns (ok: bool)
    requires |one| == |two| && one != two
    requires newItemset.Length == |one| + 1
    modifies newItemset
    ensures ok == MergeOk(one, two)
    ensures ok ==> newItemset[..] == Merged(one, two)
  {
    var i, j, k, d := 0, 0, 0, 0;
    var length := |one|;
    ghost var p := FirstDiff(one, two);
    while i < length && j < length
      invariant 0 <= j <= i <= length && d == i - j && d <= 1 && k == i
      invariant forall m :: 0 <= m < k ==> newItemset[m] == one[m]
      invariant d == 0 ==> i <= p && forall m :: 0 <= m < i ==> one[m] == two[m]
      invariant d == 1 ==> p < i && one[p] < two[p]
      invariant d == 1 ==> forall m :: p < m < i ==> one[m] == two[m - 1]
    {
      if one[i] == two[j] {
        newItemset[k] := one[i];
        i, j := i + 1, j + 1;
      } else if one[i] < two[j] {
        d := d + 1;
        if d < 2 {
          FirstDiffUnique(one, two, i);
          newItemset[k] := one[i];
          i := i + 1;
        } else {
          return false;
        }
      } else {
        if d == 0 {
          FirstDiffUnique(one, two, i);
        }
        return false;
      }
      k := k + 1;
    }
    newItemset[k] := two[j];
    assert newItemset[..] == Merged(one, two);
    return true;
  }
}
