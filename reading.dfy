/**
 * The input of ReadFile (algorithm/algorithm.go:37-83) as the loop sees it:
 * each line split at single spaces, and each field as strconv.Atoi returns
 * it. A field Atoi rejects still comes with a value (0 for text that is no
 * number, the clamped value for a number out of range), and ReadFile uses
 * that value to raise maxItemID before it gives up.
 */
module Reading {
  import opened TransactionIndex

  /** One field of a line: a number, or an error and the value that came with it. */
  datatype Token = Num(v: int) | Bad(v: int)

  /** The values Atoi returns for the fields of a line, in order. */
  function Vals(line: seq<Token>): (r: seq<int>)
    ensures |r| == |line|
    ensures forall p :: 0 <= p < |line| ==> r[p] == line[p].v
  {
    if |line| == 0 then [] else Vals(line[..|line| - 1]) + [line[|line| - 1].v]
  }

  /** A line whose every field is a number. */
  predicate Clean(line: seq<Token>)
  {
    forall p :: 0 <= p < |line| ==> line[p].Num?
  }

  predicate AllClean(lines: seq<seq<Token>>)
  {
    forall t :: 0 <= t < |lines| ==> Clean(lines[t])
  }

  /** The transactions of a list of lines of numbers. */
  function Items(lines: seq<seq<Token>>): (db: Db)
    ensures |db| == |lines|
    ensures forall t :: 0 <= t < |lines| ==> db[t] == Vals(lines[t])
  {
    if |lines| == 0 then [] else Items(lines[..|lines| - 1]) + [Vals(lines[|lines| - 1])]
  }

  /** The position of the first rejected field of a line. */
  function FirstBad(line: seq<Token>): (p: nat)
    requires !Clean(line)
    ensures p < |line| && line[p].Bad? && Clean(line[..p])
  {
    if line[0].Bad? then 0
    else
      var p := FirstBad(line[1..]);
      p + 1
  }

  /** The number of the first line with a rejected field. */
  function FirstBadLine(lines: seq<seq<Token>>): (t: nat)
    requires !AllClean(lines)
    ensures t < |lines| && !Clean(lines[t]) && AllClean(lines[..t])
  {
    if !Clean(lines[0]) then 0
    else
      var t := FirstBadLine(lines[1..]);
      t + 1
  }

  /** The first rejected field is the only one with no rejected field before it. */
  lemma FirstBadIs(line: seq<Token>, p: nat)
    requires p < |line| && line[p].Bad? && Clean(line[..p])
    ensures !Clean(line) && FirstBad(line) == p
  {
    var q := FirstBad(line);
  }

  lemma FirstBadLineIs(lines: seq<seq<Token>>, t: nat)
    requires t < |lines| && !Clean(lines[t]) && AllClean(lines[..t])
    ensures !AllClean(lines) && FirstBadLine(lines) == t
  {
    var u := FirstBadLine(lines);
  }

  /** Reading field p of a line pushes transaction t onto its list and raises the maximum to its value. */
  lemma ReadField(m: Index, maxSoFar: int, line: seq<Token>, p: nat, t: int)
    requires p < |line|
    ensures var m' := PushAll(m, Vals(line[..p]), t);
      PushAll(m, Vals(line[..p + 1]), t) == m'[line[p].v := Lookup(m', line[p].v) + [t]]
    ensures var mx := MaxAll(maxSoFar, Vals(line[..p]));
      MaxAll(maxSoFar, Vals(line[..p + 1])) == if line[p].v > mx then line[p].v else mx
    ensures Clean(line[..p]) && line[p].Num? ==> Clean(line[..p + 1])
  {
    var vs := Vals(line[..p + 1]);
    assert line[..p + 1][..p] == line[..p];
    assert vs[..p] == Vals(line[..p]);
  }

  /** The transactions of the first t + 1 lines: those of the first t, then line t. */
  lemma ItemsSnoc(lines: seq<seq<Token>>, t: nat)
    requires t < |lines|
    ensures var db := Items(lines[..t + 1]);
      |db| == t + 1 && db[..t] == Items(lines[..t]) && db[t] == Vals(lines[t])
  {
    assert lines[..t + 1][..t] == lines[..t];
  }

  /** One more line of numbers keeps every line read so far clean. */
  lemma AllCleanSnoc(lines: seq<seq<Token>>, t: nat)
    requires t < |lines|
    ensures AllClean(lines[..t]) && Clean(lines[t]) ==> AllClean(lines[..t + 1])
  {
  }

  /** A whole line read: transaction t holds the values of its fields. */
  lemma ReadLine(lines: seq<seq<Token>>, t: nat)
    requires t < |lines|
    ensures IndexOf(Items(lines[..t + 1])) == PushAll(IndexOf(Items(lines[..t])), Vals(lines[t]), t)
    ensures MaxItemOf(Items(lines[..t + 1])) == MaxAll(MaxItemOf(Items(lines[..t])), Vals(lines[t]))
    ensures AllClean(lines[..t]) && Clean(lines[t]) ==> AllClean(lines[..t + 1])
  {
    ItemsSnoc(lines, t);
    AllCleanSnoc(lines, t);
  }
}
