/**
 * Canonical string keys of itemsets (ItemsetsToString in algorithm/algorithm.go).
 *
 * The source formats an integer slice with fmt.Sprint ("[1 2 3]"), turns the
 * spaces into commas and trims the brackets, so the key of an itemset is its
 * items in decimal, joined by commas. Level-1 keys are written with
 * strconv.Itoa instead; both agree on singletons. The key is used to index the
 * candidate and count maps, so the model proves that distinct itemsets never
 * share a key.
 */
module Keys {

  /** The decimal digit character of d. */
  function Digit(d: nat): char
    requires d < 10
  {
    (('0' as int) + d) as char
  }

  /** Decimal form of a natural number, most significant digit first, no leading zeros. */
  function NatToString(n: nat): string
  {
    if n < 10 then [Digit(n)] else NatToString(n / 10) + [Digit(n % 10)]
  }

  /** strconv.Itoa: decimal form with a leading '-' for negative numbers. */
  function Itoa(i: int): string
  {
    if i < 0 then "-" + NatToString(-i) else NatToString(i)
  }

  /**
   * Items in decimal, joined by commas, without brackets: every item takes at
   * least one character and a comma separates each from the next.
   */
  function ItemsetsToString(s: seq<int>): (r: string)
    ensures |r| >= 2 * |s| - 1
  {
    if |s| == 0 then ""
    else if |s| == 1 then ItoaShape(s[0]); Itoa(s[0])
    else ItoaShape(s[0]); Itoa(s[0]) + "," + ItemsetsToString(s[1..])
  }

  predicate IsDigit(c: char)
  {
    '0' <= c <= '9'
  }

  lemma {:induction false} NatToStringDigits(n: nat)
    ensures |NatToString(n)| >= 1
    ensures forall c :: c in NatToString(n) ==> IsDigit(c)
    ensures n >= 10 ==> |NatToString(n)| >= 2
  {
    if n >= 10 {
      NatToStringDigits(n / 10);
    }
  }

  lemma {:induction false} NatToStringInjective(a: nat, b: nat)
    requires NatToString(a) == NatToString(b)
    ensures a == b
  {
    NatToStringDigits(a);
    NatToStringDigits(b);
    if a >= 10 && b >= 10 {
      var sa, sb := NatToString(a / 10), NatToString(b / 10);
      assert NatToString(a) == sa + [Digit(a % 10)];
      assert NatToString(b) == sb + [Digit(b % 10)];
      assert |sa| == |sb|;
      assert sa == NatToString(a)[..|sa|] == NatToString(b)[..|sb|] == sb;
      assert Digit(a % 10) == NatToString(a)[|sa|] == Digit(b % 10);
      NatToStringInjective(a / 10, b / 10);
    } else if a < 10 && b < 10 {
      assert Digit(a) == NatToString(a)[0];
    }
  }

  /** Decimal forms are never empty and never contain a comma. */
  lemma ItoaShape(i: int)
    ensures |Itoa(i)| >= 1
    ensures ',' !in Itoa(i)
    ensures Itoa(i)[0] == '-' <==> i < 0
  {
    NatToStringDigits(if i < 0 then -i else i);
    if i >= 0 {
      assert IsDigit(Itoa(i)[0]);
    }
  }

  /** strconv.Itoa never maps two integers to the same string. */
  lemma ItoaInjective(a: int, b: int)
    requires Itoa(a) == Itoa(b)
    ensures a == b
  {
    ItoaShape(a);
    ItoaShape(b);
    if a < 0 && b < 0 {
      assert NatToString(-a) == Itoa(a)[1..] == Itoa(b)[1..] == NatToString(-b);
      NatToStringInjective(-a, -b);
    } else if a >= 0 && b >= 0 {
      NatToStringInjective(a, b);
    }
  }

  /** In "head,tail" with a comma-free head, the first comma follows the head. */
  lemma CommaAt(x: string, y: string)
    requires ',' !in x
    ensures (x + "," + y)[|x|] == ','
    ensures forall i :: 0 <= i < |x| ==> (x + "," + y)[i] != ','
  {
    assert forall i :: 0 <= i < |x| ==> (x + "," + y)[i] == x[i];
  }

  /** A comma-free head is recovered from "head,tail". */
  lemma SplitAtComma(x: string, y: string, x': string, y': string)
    requires ',' !in x && ',' !in x'
    requires x + "," + y == x' + "," + y'
    ensures x == x' && y == y'
  {
    var s := x + "," + y;
    CommaAt(x, y);
    CommaAt(x', y');
    assert |x| == |x'|;
    assert x == s[..|x|] == x';
    assert y == s[|x| + 1..] == y';
  }

  /** The key is empty only for the empty itemset, and contains a comma exactly when it has two or more items. */
  lemma {:induction false} KeyShape(s: seq<int>)
    ensures |ItemsetsToString(s)| == 0 <==> |s| == 0
    ensures ',' in ItemsetsToString(s) <==> |s| >= 2
  {
    if |s| >= 1 {
      ItoaShape(s[0]);
    }
    if |s| >= 2 {
      var k := ItemsetsToString(s);
      assert k[|Itoa(s[0])|] == ',';
    }
  }

  /** Two itemsets have the same key only when they are equal. */
  lemma {:induction false} ItemsetsToStringInjective(a: seq<int>, b: seq<int>)
    requires ItemsetsToString(a) == ItemsetsToString(b)
    ensures a == b
  {
    KeyShape(a);
    KeyShape(b);
    if |a| == 1 && |b| == 1 {
      ItoaInjective(a[0], b[0]);
    } else if |a| >= 2 && |b| >= 2 {
      ItoaShape(a[0]);
      ItoaShape(b[0]);
      SplitAtComma(Itoa(a[0]), ItemsetsToString(a[1..]), Itoa(b[0]), ItemsetsToString(b[1..]));
      ItoaInjective(a[0], b[0]);
      ItemsetsToStringInjective(a[1..], b[1..]);
      assert a == [a[0]] + a[1..];
      assert b == [b[0]] + b[1..];
    }
  }

  /** The level-1 key written with strconv.Itoa agrees with ItemsetsToString. */
  lemma SingletonKey(i: int)
    ensures ItemsetsToString([i]) == Itoa(i)
  {
  }
}
