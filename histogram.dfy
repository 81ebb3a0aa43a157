/**
 * The histogram of word counts: an ordered map from bin index to the number
 * of documents whose word count falls into that bin, with a bin size and a
 * zero-fill flag that are fixed when it is created.
 */
module Histograms {
  import opened Format
  import opened Reorderings

  /** The bin a word count falls into. */
  function Bin(count: nat, binSize: nat): nat
    requires binSize >= 1
  {
    count / binSize
  }

  /** How many of the word counts fall into bin `k`. */
  function Occurrences(counts: seq<nat>, binSize: nat, k: nat): nat
    requires binSize >= 1
  {
    if counts == [] then 0
    else Occurrences(counts[..|counts| - 1], binSize, k) + (if Bin(counts[|counts| - 1], binSize) == k then 1 else 0)
  }

  /** One more than the highest bin any of the word counts falls into; 0 when there are none. */
  function Top(counts: seq<nat>, binSize: nat): nat
    requires binSize >= 1
  {
    if counts == [] then 0
    else
      var prefix, b := Top(counts[..|counts| - 1], binSize), Bin(counts[|counts| - 1], binSize);
      if prefix < b + 1 then b + 1 else prefix
  }

  /** `Top` is one more than the highest bin seen: every count's bin is below it and the last bin below it is reached. */
  lemma {:induction false} TopIsMaxBinPlusOne(counts: seq<nat>, binSize: nat)
    requires binSize >= 1
    ensures forall i :: 0 <= i < |counts| ==> Bin(counts[i], binSize) < Top(counts, binSize)
    ensures counts != [] ==> exists i :: 0 <= i < |counts| && Bin(counts[i], binSize) + 1 == Top(counts, binSize)
  {
    if counts != [] {
      var prefix := counts[..|counts| - 1];
      TopIsMaxBinPlusOne(prefix, binSize);
      assert forall i :: 0 <= i < |prefix| ==> prefix[i] == counts[i];
      if Top(counts, binSize) != Top(prefix, binSize) {
        assert Bin(counts[|counts| - 1], binSize) + 1 == Top(counts, binSize);
      } else {
        var i :| 0 <= i < |prefix| && Bin(prefix[i], binSize) + 1 == Top(prefix, binSize);
        assert Bin(counts[i], binSize) + 1 == Top(counts, binSize);
      }
    }
  }

  lemma AppendUnfolds(counts: seq<nat>, count: nat, binSize: nat, k: nat)
    requires binSize >= 1
    ensures Occurrences(counts + [count], binSize, k) == Occurrences(counts, binSize, k) + (if Bin(count, binSize) == k then 1 else 0)
    ensures Top(counts + [count], binSize) == if Top(counts, binSize) < Bin(count, binSize) + 1 then Bin(count, binSize) + 1 else Top(counts, binSize)
  {
    assert (counts + [count])[..|counts|] == counts;
  }

  /**
   * The histogram that the given word counts, added in order, produce: every
   * bin that some count fell into and, with zero-fill, every bin below the
   * highest of them, each mapped to the number of counts in it.
   */
  function Tally(counts: seq<nat>, binSize: nat, includeZeroes: bool): map<nat, nat>
    requires binSize >= 1
  {
    map k: nat | k < Top(counts, binSize) && (includeZeroes || Occurrences(counts, binSize, k) > 0)
      :: Occurrences(counts, binSize, k)
  }

  lemma {:induction false} OccurrencesBelowTop(counts: seq<nat>, binSize: nat, k: nat)
    requires binSize >= 1
    requires Occurrences(counts, binSize, k) > 0
    ensures k < Top(counts, binSize)
  {
    if Bin(counts[|counts| - 1], binSize) != k {
      OccurrencesBelowTop(counts[..|counts| - 1], binSize, k);
    }
  }

  /** Adding one more count bumps its bin by one and, with zero-fill, adds every missing bin below it at 0. */
  lemma TallyAppend(counts: seq<nat>, count: nat, binSize: nat, includeZeroes: bool)
    requires binSize >= 1
    ensures var before, after, b := Tally(counts, binSize, includeZeroes), Tally(counts + [count], binSize, includeZeroes), Bin(count, binSize);
      && (forall k: nat :: k in after <==> k in before || k == b || (includeZeroes && k < b))
      && (forall k :: k in after ==> after[k] == Value(before, k) + (if k == b then 1 else 0))
  {
    var c' := counts + [count];
    var before, after, b := Tally(counts, binSize, includeZeroes), Tally(c', binSize, includeZeroes), Bin(count, binSize);
    forall k: nat
      ensures k in after <==> k in before || k == b || (includeZeroes && k < b)
      ensures k in after ==> after[k] == Value(before, k) + (if k == b then 1 else 0)
    {
      AppendUnfolds(counts, count, binSize, k);
      if Occurrences(counts, binSize, k) > 0 {
        OccurrencesBelowTop(counts, binSize, k);
      }
    }
  }

  /** A map that changes from a tally the way `TallyAppend` describes is the tally with one more count. */
  lemma TallyStep(before: map<nat, nat>, after: map<nat, nat>, counts: seq<nat>, count: nat, binSize: nat, includeZeroes: bool)
    requires binSize >= 1 && before == Tally(counts, binSize, includeZeroes)
    requires forall k: nat :: k in after <==> k in before || k == Bin(count, binSize) || (includeZeroes && k < Bin(count, binSize))
    requires forall k :: k in after ==> after[k] == Value(before, k) + (if k == Bin(count, binSize) then 1 else 0)
    ensures after == Tally(counts + [count], binSize, includeZeroes)
  {
    TallyAppend(counts, count, binSize, includeZeroes);
    var t := Tally(counts + [count], binSize, includeZeroes);
    assert after.Keys == t.Keys;
  }

  /** Without zero-fill the keys are exactly the bins the counts fell into. */
  lemma TallyKeysTouched(counts: seq<nat>, binSize: nat, k: nat)
    requires binSize >= 1
    ensures k in Tally(counts, binSize, false) <==> exists i :: 0 <= i < |counts| && Bin(counts[i], binSize) == k
  {
    OccurrencesPositive(counts, binSize, k);
    if Occurrences(counts, binSize, k) > 0 {
      OccurrencesBelowTop(counts, binSize, k);
    }
  }

  /** A bin holds some count exactly when one of the counts falls into it. */
  lemma {:induction false} OccurrencesPositive(counts: seq<nat>, binSize: nat, k: nat)
    requires binSize >= 1
    ensures Occurrences(counts, binSize, k) > 0 <==> exists i :: 0 <= i < |counts| && Bin(counts[i], binSize) == k
  {
    if counts != [] {
      var prefix := counts[..|counts| - 1];
      OccurrencesPositive(prefix, binSize, k);
      assert forall i :: 0 <= i < |prefix| ==> prefix[i] == counts[i];
      if exists i :: 0 <= i < |counts| && Bin(counts[i], binSize) == k {
        var i :| 0 <= i < |counts| && Bin(counts[i], binSize) == k;
        if i < |prefix| {
          assert Bin(prefix[i], binSize) == k;
        }
      }
    }
  }

  /** With zero-fill the keys are exactly 0 up to the highest bin any count fell into. */
  lemma TallyKeysZeroFill(counts: seq<nat>, binSize: nat)
    requires binSize >= 1
    ensures forall k: nat :: k in Tally(counts, binSize, true) <==> k < Top(counts, binSize)
  {
  }

  /** Taking the count at index `i` out removes it from its bin and leaves `Top` the maximum of the rest and its bin. */
  lemma {:induction false} RemoveAt(counts: seq<nat>, i: nat, binSize: nat)
    requires binSize >= 1 && i < |counts|
    ensures var rest, b := counts[..i] + counts[i + 1..], Bin(counts[i], binSize);
      && (forall k: nat :: Occurrences(counts, binSize, k) == Occurrences(rest, binSize, k) + (if b == k then 1 else 0))
      && Top(counts, binSize) == if Top(rest, binSize) < b + 1 then b + 1 else Top(rest, binSize)
  {
    var n := |counts|;
    var init := counts[..n - 1];
    if i == n - 1 {
      assert counts[..i] + counts[i + 1..] == init;
    } else {
      RemoveAt(init, i, binSize);
      var rest := counts[..i] + counts[i + 1..];
      assert rest[..|rest| - 1] == init[..i] + init[i + 1..];
      assert rest[|rest| - 1] == counts[n - 1];
      assert init[i] == counts[i];
    }
  }

  /** Counts that are a reordering of each other fall into the same bins the same number of times. */
  lemma {:induction false} ReorderedCounts(c1: seq<nat>, c2: seq<nat>, binSize: nat)
    requires binSize >= 1 && multiset(c1) == multiset(c2)
    ensures forall k: nat :: Occurrences(c1, binSize, k) == Occurrences(c2, binSize, k)
    ensures Top(c1, binSize) == Top(c2, binSize)
    decreases |c1|
  {
    if c1 == [] {
      EmptyMatch(c2);
    } else {
      var i := PickMatch(c1, c2);
      ReorderedCounts(c1[1..], c2[..i] + c2[i + 1..], binSize);
      RemoveAt(c2, i, binSize);
      RemoveAt(c1, 0, binSize);
      assert c1[..0] + c1[1..] == c1[1..];
    }
  }

  /** The histogram does not depend on the order in which the documents were counted. */
  lemma TallyOrderIndependent(c1: seq<nat>, c2: seq<nat>, binSize: nat, includeZeroes: bool)
    requires binSize >= 1 && multiset(c1) == multiset(c2)
    ensures Tally(c1, binSize, includeZeroes) == Tally(c2, binSize, includeZeroes)
  {
    ReorderedCounts(c1, c2, binSize);
  }

  /** The value the map holds for a key, absent keys reading as 0. */
  function Value(m: map<nat, nat>, k: nat): nat {
    if k in m then m[k] else 0
  }

  /** The sum of the frequencies of the keys below `n`. */
  function SumBelow(m: map<nat, nat>, n: nat): nat {
    if n == 0 then 0 else SumBelow(m, n - 1) + Value(m, n - 1)
  }

  /** Raising the value at one key by `d` raises every sum that covers that key by `d`. */
  lemma {:induction false} SumBelowBump(m: map<nat, nat>, m': map<nat, nat>, b: nat, d: nat, n: nat)
    requires forall k: nat :: k < n ==> Value(m', k) == Value(m, k) + (if k == b then d else 0)
    ensures SumBelow(m', n) == SumBelow(m, n) + (if b < n then d else 0)
  {
    if n > 0 {
      SumBelowBump(m, m', b, d, n - 1);
    }
  }

  /** The frequencies of a histogram add up to the number of counts added to it. */
  lemma {:induction false} TallyTotal(counts: seq<nat>, binSize: nat, includeZeroes: bool, n: nat)
    requires binSize >= 1 && n >= Top(counts, binSize)
    ensures SumBelow(Tally(counts, binSize, includeZeroes), n) == |counts|
  {
    var after := Tally(counts, binSize, includeZeroes);
    if counts == [] {
      SumBelowBump(after, after, 0, 0, n);
      EmptySum(n);
      assert after == map[];
    } else {
      var prefix, last := counts[..|counts| - 1], counts[|counts| - 1];
      assert prefix + [last] == counts;
      TallyAppend(prefix, last, binSize, includeZeroes);
      var before := Tally(prefix, binSize, includeZeroes);
      TallyTotal(prefix, binSize, includeZeroes, n);
      SumBelowBump(before, after, Bin(last, binSize), 1, n);
    }
  }

  lemma {:induction false} EmptySum(n: nat)
    ensures SumBelow(map[], n) == 0
  {
    if n > 0 {
      EmptySum(n - 1);
    }
  }

  /** The least key of a non-empty map. */
  ghost function MinKey(m: map<nat, nat>): (k: nat)
    requires m != map[]
    ensures k in m && forall j :: j in m ==> k <= j
    decreases m.Keys
  {
    var x :| x in m;
    var rest := m - {x};
    assert forall j :: j in m ==> j == x || j in rest;
    if rest == map[] then x
    else
      var y := MinKey(rest);
      if x < y then x else y
  }

  /** The (bin, frequency) rows of a map in ascending key order, as a `BTreeMap` walks them. */
  ghost function AscendRows(m: map<nat, nat>): seq<(nat, nat)>
    decreases m.Keys
  {
    if m == map[] then []
    else
      var k := MinKey(m);
      [(k, m[k])] + AscendRows(m - {k})
  }

  /** The rows are in strictly ascending key order. */
  lemma {:induction false} AscendRowsSorted(m: map<nat, nat>)
    ensures forall i, j :: 0 <= i < j < |AscendRows(m)| ==> AscendRows(m)[i].0 < AscendRows(m)[j].0
    decreases m.Keys
  {
    if m != map[] {
      var k := MinKey(m);
      var rest := m - {k};
      AscendRowsSorted(rest);
      AscendRowsFromMap(rest);
      assert AscendRows(m)[1..] == AscendRows(rest);
    }
  }

  /** Each row is a key of the map with its frequency. */
  lemma {:induction false} AscendRowsFromMap(m: map<nat, nat>)
    ensures forall i :: 0 <= i < |AscendRows(m)| ==> AscendRows(m)[i].0 in m && AscendRows(m)[i].1 == m[AscendRows(m)[i].0]
    decreases m.Keys
  {
    if m != map[] {
      var k := MinKey(m);
      var rest := m - {k};
      AscendRowsFromMap(rest);
      assert AscendRows(m)[1..] == AscendRows(rest);
    }
  }

  /** Every key of the map has a row. */
  lemma {:induction false} AscendRowsCover(m: map<nat, nat>, key: nat)
    requires key in m
    ensures exists i :: 0 <= i < |AscendRows(m)| && AscendRows(m)[i].0 == key
    decreases m.Keys
  {
    var k := MinKey(m);
    var rows := AscendRows(m);
    if key == k {
      assert rows[0].0 == key;
    } else {
      var rest := m - {k};
      AscendRowsCover(rest, key);
      var i :| 0 <= i < |AscendRows(rest)| && AscendRows(rest)[i].0 == key;
      assert rows[i + 1] == AscendRows(rest)[i];
    }
  }

  /** When the keys are exactly `lo` up to `hi - 1`, the rows are those keys one after the other. */
  lemma {:induction false} AscendRowsRange(m: map<nat, nat>, lo: nat, hi: nat)
    requires forall k: nat :: k in m <==> lo <= k < hi
    ensures |AscendRows(m)| == if lo <= hi then hi - lo else 0
    ensures forall i :: 0 <= i < |AscendRows(m)| ==> AscendRows(m)[i].0 == lo + i
    decreases hi - lo
  {
    if lo < hi {
      assert lo in m;
      var k := MinKey(m);
      assert k == lo;
      var rest := m - {k};
      assert forall k: nat :: k in rest <==> lo + 1 <= k < hi;
      AscendRowsRange(rest, lo + 1, hi);
    } else {
      assert m == map[];
    }
  }

  /** The sum of the frequency column of some rows. */
  function SumFrequencies(rows: seq<(nat, nat)>): nat {
    if rows == [] then 0 else rows[0].1 + SumFrequencies(rows[1..])
  }

  /** Summing the rendered rows is summing the map. */
  lemma {:induction false} AscendRowsSum(m: map<nat, nat>, n: nat)
    requires forall k :: k in m ==> k < n
    ensures SumFrequencies(AscendRows(m)) == SumBelow(m, n)
    decreases m.Keys
  {
    if m != map[] {
      var k := MinKey(m);
      var rest := m - {k};
      AscendRowsSum(rest, n);
      SumBelowBump(rest, m, k, m[k], n);
    } else {
      EmptySum(n);
    }
  }

  /** The frequency column of the rendered table adds up to the number of word counts added. */
  lemma RenderedTotal(counts: seq<nat>, binSize: nat, includeZeroes: bool)
    requires binSize >= 1
    ensures SumFrequencies(AscendRows(Tally(counts, binSize, includeZeroes))) == |counts|
  {
    var n := Top(counts, binSize);
    AscendRowsSum(Tally(counts, binSize, includeZeroes), n);
    TallyTotal(counts, binSize, includeZeroes, n);
  }

  /** With zero-fill the rendered rows are bins 0, 1, 2, ... up to the highest bin seen, with no gaps. */
  lemma RenderedNoGaps(counts: seq<nat>, binSize: nat)
    requires binSize >= 1
    ensures var rows := AscendRows(Tally(counts, binSize, true));
      |rows| == Top(counts, binSize) && forall i :: 0 <= i < |rows| ==> rows[i].0 == i
  {
    var m := Tally(counts, binSize, true);
    TallyKeysZeroFill(counts, binSize);
    AscendRowsRange(m, 0, Top(counts, binSize));
  }

  /** The first column of a row: the bin itself when bins are one count wide, else the range it covers. */
  function Label(k: nat, binSize: nat): string {
    if binSize == 1 then NatToString(k) else RangeLabel(k, binSize)
  }

  /** The half-open range of counts bin `k` covers, `lo-hi`. */
  function RangeLabel(k: nat, binSize: nat): string {
    NatToString(k * binSize) + "-" + NatToString((k + 1) * binSize)
  }

  const Border: string := "+----------+----------+"
  const Header: string := "|Word count| Frequency|"

  function RowLine(binLabel: string, frequency: nat): string {
    "|" + PadLeft(binLabel, 10) + "|" + PadLeft(NatToString(frequency), 10) + "|"
  }

  function RowLines(rows: seq<(nat, nat)>, binSize: nat): seq<string> {
    if rows == [] then [] else [RowLine(Label(rows[0].0, binSize), rows[0].1)] + RowLines(rows[1..], binSize)
  }

  /** The whole rendered table: borders and header, one row per bin in ascending order, a closing border. */
  ghost function Table(m: map<nat, nat>, binSize: nat): seq<string> {
    [Border, Header, Border] + RowLines(AscendRows(m), binSize) + [Border]
  }

  /** The table's shape: three heading lines, then row `i` shows the `i`-th smallest bin, then a border. */
  lemma {:induction false} TableShape(m: map<nat, nat>, binSize: nat)
    ensures var t, rows := Table(m, binSize), AscendRows(m);
      && |t| == |rows| + 4
      && t[0] == Border && t[1] == Header && t[2] == Border && t[|t| - 1] == Border
      && forall i :: 0 <= i < |rows| ==> t[3 + i] == RowLine(Label(rows[i].0, binSize), rows[i].1)
  {
    RowLinesAt(AscendRows(m), binSize);
  }

  lemma {:induction false} RowLinesAt(rows: seq<(nat, nat)>, binSize: nat)
    ensures |RowLines(rows, binSize)| == |rows|
    ensures forall i :: 0 <= i < |rows| ==> RowLines(rows, binSize)[i] == RowLine(Label(rows[i].0, binSize), rows[i].1)
  {
    if rows != [] {
      RowLinesAt(rows[1..], binSize);
      var r := RowLines(rows, binSize);
      assert r == [RowLine(Label(rows[0].0, binSize), rows[0].1)] + RowLines(rows[1..], binSize);
      forall i | 0 <= i < |rows| ensures r[i] == RowLine(Label(rows[i].0, binSize), rows[i].1) {
        if i > 0 {
          assert rows[1..][i - 1] == rows[i];
        }
      }
    }
  }

  /** With one-count bins the label is the bin number itself, and distinct bins get distinct labels. */
  lemma UnitLabels(j: nat, k: nat)
    ensures Label(k, 1) == NatToString(k)
    ensures Label(j, 1) == Label(k, 1) ==> j == k
  {
    DecimalRoundTrip(j);
    DecimalRoundTrip(k);
  }

  /** Taking the least key off a map takes its first rendered row off the table. */
  lemma RowLinesStep(m: map<nat, nat>, k: nat, binSize: nat)
    requires k in m && forall j :: j in m ==> k <= j
    ensures RowLines(AscendRows(m), binSize)
         == [RowLine(Label(k, binSize), m[k])] + RowLines(AscendRows(m - {k}), binSize)
  {
    assert MinKey(m) == k;
  }

  lemma ConcatAssoc(front: seq<string>, row: string, later: seq<string>, last: string)
    ensures front + [row] + later + [last] == front + ([row] + later) + [last]
  {
  }

  class Histogram {
    /** The `BTreeMap` from bin index to frequency. */
    var data: map<nat, nat>
    const binSize: nat
    const includeZeroes: bool
    /** Every word count added so far, in order. */
    ghost var Counts: seq<nat>

    ghost predicate Valid()
      reads this
    {
      binSize >= 1 && data == Tally(Counts, binSize, includeZeroes)
    }

    constructor (binSize: nat, includeZeroes: bool)
      requires binSize >= 1
      ensures Valid()
      ensures this.binSize == binSize && this.includeZeroes == includeZeroes
      ensures data == map[] && Counts == []
    {
      this.binSize := binSize;
      this.includeZeroes := includeZeroes;
      data := map[];
      Counts := [];
      new;
      assert Tally([], binSize, includeZeroes) == map[];
    }

    /**
     * `add_word_count`: bump the bin of `count`, inserting it at 1 when it is
     * absent; with zero-fill, insert every missing bin below it at 0.
     */
    method AddWordCount(count: nat)
      requires Valid()
      modifies this
      ensures Valid()
      ensures Counts == old(Counts) + [count]
      ensures Bin(count, binSize) in data && data[Bin(count, binSize)] == Value(old(data), Bin(count, binSize)) + 1
    {
      var binIndex := count / binSize;
      var d: map<nat, nat> := data;
      var frequency := if binIndex in d then d[binIndex] else 0;
      d := d[binIndex := frequency + 1];
      if includeZeroes {
        for k := 0 to binIndex
          invariant binIndex in d && d[binIndex] == frequency + 1
          invariant forall j :: j in data ==> j in d && (j != binIndex ==> d[j] == data[j])
          invariant forall j :: j in d ==> j in data || j == binIndex || (j < k && d[j] == 0)
          invariant forall j: nat :: j < k ==> j in d
        {
          if k !in d {
            d := d[k := 0];
          }
        }
      }
      TallyStep(data, d, Counts, count, binSize, includeZeroes);
      data := d;
      Counts := Counts + [count];
    }

    /**
     * `acsii_histogram`: the table's lines. The map is walked in ascending
     * key order by taking the least key not yet shown.
     */
    method AsciiHistogram() returns (lines: seq<string>)
      ensures lines == Table(data, binSize)
    {
      lines := [Border, Header, Border];
      var rest := data;
      while rest != map[]
        invariant lines + RowLines(AscendRows(rest), binSize) + [Border] == Table(data, binSize)
        decreases rest.Keys
      {
        ghost var least := MinKey(rest);
        var k :| k in rest && forall j :: j in rest ==> k <= j;
        assert k == least;
        var countLabel := RangeLabel(k, binSize);
        if binSize == 1 {
          countLabel := NatToString(k);
        }
        assert countLabel == Label(k, binSize);
        RowLinesStep(rest, k, binSize);
        var row := RowLine(countLabel, rest[k]);
        ghost var later := RowLines(AscendRows(rest - {k}), binSize);
        ConcatAssoc(lines, row, later, Border);
        lines := lines + [row];
        rest := rest - {k};
      }
      lines := lines + [Border];
    }
  }
}
