/** `calculateAverageTemperature` of Series.cpp: each pixel value is looked up
    in the colour table (the first row whose key equals it wins), the matched
    rows' temperatures are summed, and the scan stops once `numPixels` pixels
    have matched. The pixel values arrive as a sequence; reading them from the
    tensor file is not part of this model. */
module Aggregation {

  import opened Wrappers
  import opened ColorTable

  /** Index of the first row whose key equals `key`, if any. */
  function FirstMatch(table: seq<ColorInfo>, key: int): (r: Option<nat>)
    ensures r.Some? ==>
              && r.value < |table| && table[r.value].hexCode == key
              && forall j :: 0 <= j < r.value ==> table[j].hexCode != key
    ensures r.None? ==> forall j :: 0 <= j < |table| ==> table[j].hexCode != key
  {
    if |table| == 0 then None
    else if table[0].hexCode == key then Some(0)
    else
      match FirstMatch(table[1..], key)
      case None => None
      case Some(i) => Some(i + 1)
  }

  /** The three accumulators of the scan. */
  datatype Totals = Totals(sumF: int, sumC: int, count: nat)

  /** One matched row added to the accumulators. */
  function Add(t: Totals, e: ColorInfo): Totals {
    Totals(t.sumF + e.temperatureF, t.sumC + e.temperatureC, t.count + 1)
  }

  /** Adding accumulators, as partial results of two stretches would be combined. */
  function Combine(x: Totals, y: Totals): Totals {
    Totals(x.sumF + y.sumF, x.sumC + y.sumC, x.count + y.count)
  }

  /** The accumulators after the first `k` pixels have been looked up: each
      pixel adds the row of its first match, or nothing. */
  function TotalsUpTo(table: seq<ColorInfo>, pixels: seq<int>, k: nat): (t: Totals)
    requires k <= |pixels|
    ensures t.count <= k
  {
    if k == 0 then Totals(0, 0, 0)
    else
      var before := TotalsUpTo(table, pixels, k - 1);
      match FirstMatch(table, pixels[k - 1])
      case None => before
      case Some(j) => Add(before, table[j])
  }

  /** The rows that the pixels of `pixels` contribute, in pixel order: the first
      matching row of each pixel that matches, nothing for one that does not. */
  function Contributions(table: seq<ColorInfo>, pixels: seq<int>): (r: seq<ColorInfo>)
    ensures |r| <= |pixels|
  {
    if |pixels| == 0 then []
    else
      var init := Contributions(table, pixels[..|pixels| - 1]);
      match FirstMatch(table, pixels[|pixels| - 1])
      case None => init
      case Some(i) => init + [table[i]]
  }

  /** The accumulators after adding the rows of `entries` in order. */
  function TotalsOf(entries: seq<ColorInfo>): (t: Totals)
    ensures t.count == |entries|
  {
    if |entries| == 0 then Totals(0, 0, 0)
    else Add(TotalsOf(entries[..|entries| - 1]), entries[|entries| - 1])
  }

  function ScanFrom(table: seq<ColorInfo>, pixels: seq<int>, limit: int, k: nat): (n: nat)
    requires 1 <= k <= |pixels|
    requires forall m :: 1 <= m < k ==> TotalsUpTo(table, pixels, m).count < limit
    ensures k <= n <= |pixels|
    ensures n < |pixels| ==> TotalsUpTo(table, pixels, n).count >= limit
    ensures forall m :: 1 <= m < n ==> TotalsUpTo(table, pixels, m).count < limit
    decreases |pixels| - k
  {
    if k == |pixels| || TotalsUpTo(table, pixels, k).count >= limit then k
    else ScanFrom(table, pixels, limit, k + 1)
  }

  /** How many pixels the scan reads: up to and including the first pixel after
      which the match count has reached `limit`, or all of them. At least one
      pixel is read whenever there is one, since the test follows the lookup. */
  function ScanLength(table: seq<ColorInfo>, pixels: seq<int>, limit: int): (n: nat)
    ensures n <= |pixels|
    ensures |pixels| > 0 ==> n >= 1
    ensures n < |pixels| ==> TotalsUpTo(table, pixels, n).count >= limit
    ensures forall m :: 1 <= m < n ==> TotalsUpTo(table, pixels, m).count < limit
  {
    if |pixels| == 0 then 0 else ScanFrom(table, pixels, limit, 1)
  }

  /** The accumulators the scan ends with. */
  function ScanTotals(table: seq<ColorInfo>, pixels: seq<int>, limit: int): Totals {
    TotalsUpTo(table, pixels, ScanLength(table, pixels, limit))
  }

  /** The scan length is the one point where the loop can stop: after the first
      pixel that brings the match count to `limit`, or at the end. */
  lemma ScanStopsAt(table: seq<ColorInfo>, pixels: seq<int>, limit: int, i: nat)
    requires i <= |pixels|
    requires |pixels| > 0 ==> i >= 1
    requires forall m :: 1 <= m < i ==> TotalsUpTo(table, pixels, m).count < limit
    requires i == |pixels| || TotalsUpTo(table, pixels, i).count >= limit
    ensures ScanLength(table, pixels, limit) == i
  {
  }

  /** The inner loop of `calculateAverageTemperature`: the table is searched
      from the top and the search stops at the first row whose key equals the
      pixel value. */
  method Lookup(table: seq<ColorInfo>, p: int) returns (found: Option<nat>)
    ensures found == FirstMatch(table, p)
  {
    found := None;
    var j := 0;
    while j < |table|
      invariant 0 <= j <= |table|
      invariant forall m :: 0 <= m < j ==> table[m].hexCode != p
    {
      if table[j].hexCode == p {
        found := Some(j);
        return;
      }
      j := j + 1;
    }
  }

  /** The matching and summing loop of `calculateAverageTemperature`. */
  method MatchAndSum(pixels: seq<int>, table: seq<ColorInfo>, numPixels: int) returns (t: Totals)
    ensures t == ScanTotals(table, pixels, numPixels)
  {
    var sumF, sumC, count := 0, 0, 0;
    var i := 0;
    while i < |pixels|
      invariant 0 <= i <= |pixels|
      invariant Totals(sumF, sumC, count) == TotalsUpTo(table, pixels, i)
      invariant forall m :: 1 <= m <= i ==> TotalsUpTo(table, pixels, m).count < numPixels
    {
      var p := pixels[i];
      var found := Lookup(table, p);
      if found.Some? {
        sumF := sumF + table[found.value].temperatureF;
        sumC := sumC + table[found.value].temperatureC;
        count := count + 1;
      }
      i := i + 1;
      if count >= numPixels {
        break;
      }
    }
    ScanStopsAt(table, pixels, numPixels, i);
    t := Totals(sumF, sumC, count);
  }

  /** The two averages the source prints. */
  datatype Mean = Mean(fahrenheit: real, celsius: real)

  /** The averages of the accumulated temperatures; none when nothing matched,
      where the source would divide by zero. */
  function MeanOf(t: Totals): (r: Option<Mean>)
    ensures r.None? <==> t.count == 0
    ensures r.Some? ==> r.value.fahrenheit * t.count as real == t.sumF as real
    ensures r.Some? ==> r.value.celsius * t.count as real == t.sumC as real
  {
    if t.count == 0 then None
    else Some(Mean(t.sumF as real / t.count as real, t.sumC as real / t.count as real))
  }

  /** `calculateAverageTemperature` once the pixel values are read: the
      matching loop, then the two averages. */
  method CalculateAverageTemperature(pixels: seq<int>, table: seq<ColorInfo>, numPixels: int)
    returns (t: Totals, mean: Option<Mean>)
    ensures t == ScanTotals(table, pixels, numPixels)
    ensures mean == MeanOf(t)
  {
    t := MatchAndSum(pixels, table, numPixels);
    mean := MeanOf(t);
  }

  // ---------------------------------------------------------------------------
  // Properties of the lookup and of the accumulated rows

  /** A later row with the same key as an earlier one is never the one used. */
  lemma LaterDuplicateUnused(table: seq<ColorInfo>, i: nat, j: nat)
    requires i < j < |table| && table[i].hexCode == table[j].hexCode
    ensures FirstMatch(table, table[j].hexCode).Some?
    ensures FirstMatch(table, table[j].hexCode).value <= i
  {
  }

  /** One more pixel adds the row of its first match, or nothing. */
  lemma ContributionsSnoc(table: seq<ColorInfo>, pixels: seq<int>, p: int)
    ensures Contributions(table, pixels + [p]) ==
              match FirstMatch(table, p)
              case None => Contributions(table, pixels)
              case Some(i) => Contributions(table, pixels) + [table[i]]
  {
    assert (pixels + [p])[..|pixels|] == pixels;
  }

  lemma TotalsOfSnoc(entries: seq<ColorInfo>, e: ColorInfo)
    ensures TotalsOf(entries + [e]) == Add(TotalsOf(entries), e)
  {
    assert (entries + [e])[..|entries|] == entries;
  }

  /** The accumulators after `k` pixels are the totals over the rows those
      pixels contribute: the temperatures of the first matching row of each
      matched pixel, and the number of matched pixels. */
  lemma {:induction false} TotalsUpToContributions(table: seq<ColorInfo>, pixels: seq<int>, k: nat)
    requires k <= |pixels|
    ensures TotalsUpTo(table, pixels, k) == TotalsOf(Contributions(table, pixels[..k]))
    decreases k
  {
    if k > 0 {
      TotalsUpToContributions(table, pixels, k - 1);
      assert pixels[..k] == pixels[..k - 1] + [pixels[k - 1]];
      ContributionsSnoc(table, pixels[..k - 1], pixels[k - 1]);
      match FirstMatch(table, pixels[k - 1]) {
        case None =>
        case Some(j) => TotalsOfSnoc(Contributions(table, pixels[..k - 1]), table[j]);
      }
    }
  }

  /** Only rows of the table are ever used. */
  lemma {:induction false} ContributionsFromTable(table: seq<ColorInfo>, pixels: seq<int>)
    ensures forall e :: e in Contributions(table, pixels) ==> e in table
    decreases |pixels|
  {
    if |pixels| > 0 {
      ContributionsFromTable(table, pixels[..|pixels| - 1]);
    }
  }

  /** A pixel that equals no key leaves all three accumulators unchanged. */
  lemma UnmatchedPixelKeepsTotals(table: seq<ColorInfo>, pixels: seq<int>, p: int)
    requires forall j :: 0 <= j < |table| ==> table[j].hexCode != p
    ensures TotalsOf(Contributions(table, pixels + [p])) == TotalsOf(Contributions(table, pixels))
  {
    ContributionsSnoc(table, pixels, p);
  }

  /** A pixel whose first equal key is in row `j` adds that row's temperatures
      and one match, whatever later rows with the same key hold. */
  lemma MatchedPixelAddsFirstRow(table: seq<ColorInfo>, pixels: seq<int>, p: int, j: nat)
    requires j < |table| && table[j].hexCode == p
    requires forall m :: 0 <= m < j ==> table[m].hexCode != p
    ensures TotalsOf(Contributions(table, pixels + [p])) == Add(TotalsOf(Contributions(table, pixels)), table[j])
  {
    ContributionsSnoc(table, pixels, p);
    TotalsOfSnoc(Contributions(table, pixels), table[j]);
  }

  /** The accumulators over two lists of rows are the added accumulators of each. */
  lemma {:induction false} TotalsOfAppend(x: seq<ColorInfo>, y: seq<ColorInfo>)
    ensures TotalsOf(x + y) == Combine(TotalsOf(x), TotalsOf(y))
    decreases |y|
  {
    if |y| == 0 {
      assert x + y == x;
    } else {
      var init, last := y[..|y| - 1], y[|y| - 1];
      assert x + y == (x + init) + [last];
      assert init + [last] == y;
      TotalsOfAppend(x, init);
      TotalsOfSnoc(x + init, last);
      TotalsOfSnoc(init, last);
    }
  }

  lemma {:induction false} ContributionsConcat(table: seq<ColorInfo>, a: seq<int>, b: seq<int>)
    ensures Contributions(table, a + b) == Contributions(table, a) + Contributions(table, b)
    decreases |b|
  {
    if |b| == 0 {
      assert a + b == a;
    } else {
      var init, p := b[..|b| - 1], b[|b| - 1];
      assert a + b == (a + init) + [p];
      assert init + [p] == b;
      ContributionsConcat(table, a, init);
      ContributionsSnoc(table, a + init, p);
      ContributionsSnoc(table, init, p);
    }
  }

  /** The totals over two consecutive stretches of pixels are the sums of the
      totals of each: the scan can be split and its partial results added. */
  lemma TotalsOfConcat(table: seq<ColorInfo>, a: seq<int>, b: seq<int>)
    ensures TotalsOf(Contributions(table, a + b)) ==
              Combine(TotalsOf(Contributions(table, a)), TotalsOf(Contributions(table, b)))
  {
    ContributionsConcat(table, a, b);
    TotalsOfAppend(Contributions(table, a), Contributions(table, b));
  }

  // ---------------------------------------------------------------------------
  // Properties of the scan

  /** The match count never exceeds the number of pixels; with a positive
      limit it never exceeds the limit, and the scan ends early only with the
      count exactly at the limit. */
  lemma CountBounds(table: seq<ColorInfo>, pixels: seq<int>, limit: int)
    ensures ScanTotals(table, pixels, limit).count <= |pixels|
    ensures limit >= 1 ==> ScanTotals(table, pixels, limit).count <= limit
    ensures limit >= 1 ==>
              ScanTotals(table, pixels, limit).count == limit || ScanLength(table, pixels, limit) == |pixels|
  {
    var n := ScanLength(table, pixels, limit);
    if n >= 2 {
      assert TotalsUpTo(table, pixels, n - 1).count < limit;
    }
  }

  /** With a limit of zero or less the test after the first pixel already
      holds, so at most one pixel is read. */
  lemma NonPositiveLimitReadsOnePixel(table: seq<ColorInfo>, pixels: seq<int>, limit: int)
    requires limit <= 0
    ensures ScanLength(table, pixels, limit) <= 1
    ensures ScanTotals(table, pixels, limit).count <= 1
  {
  }

  /** With a limit of zero or less the outcome is decided by the first pixel
      alone: the totals are those of its first matching row, counted once, or
      zero when it matches nothing. A limit of zero therefore still yields an
      average whenever the first pixel matches. */
  lemma NonPositiveLimitTotals(table: seq<ColorInfo>, pixels: seq<int>, limit: int)
    requires limit <= 0 && |pixels| >= 1
    ensures FirstMatch(table, pixels[0]).Some? ==>
              var row := table[FirstMatch(table, pixels[0]).value];
              ScanTotals(table, pixels, limit) == Totals(row.temperatureF, row.temperatureC, 1)
    ensures FirstMatch(table, pixels[0]).None? ==> ScanTotals(table, pixels, limit) == Totals(0, 0, 0)
  {
    NonPositiveLimitReadsOnePixel(table, pixels, limit);
    assert ScanLength(table, pixels, limit) == 1;
    assert TotalsUpTo(table, pixels, 0) == Totals(0, 0, 0);
  }

  lemma {:induction false} NoMatchUpTo(table: seq<ColorInfo>, pixels: seq<int>, k: nat)
    requires k <= |pixels|
    requires forall i, j :: 0 <= i < |pixels| && 0 <= j < |table| ==> table[j].hexCode != pixels[i]
    ensures TotalsUpTo(table, pixels, k) == Totals(0, 0, 0)
    decreases k
  {
    if k > 0 {
      NoMatchUpTo(table, pixels, k - 1);
      assert FirstMatch(table, pixels[k - 1]).None?;
    }
  }

  /** When no pixel equals any key, nothing is counted and there is no mean. */
  lemma NoMatchNoMean(table: seq<ColorInfo>, pixels: seq<int>, limit: int)
    requires forall i, j :: 0 <= i < |pixels| && 0 <= j < |table| ==> table[j].hexCode != pixels[i]
    ensures ScanTotals(table, pixels, limit) == Totals(0, 0, 0)
    ensures MeanOf(ScanTotals(table, pixels, limit)).None?
  {
    NoMatchUpTo(table, pixels, ScanLength(table, pixels, limit));
  }

  lemma {:induction false} UniformUpTo(table: seq<ColorInfo>, pixels: seq<int>, k: nat, temp: int)
    requires k <= |pixels|
    requires forall j :: 0 <= j < |table| ==> table[j].temperatureF == temp
    ensures TotalsUpTo(table, pixels, k).sumF == temp * TotalsUpTo(table, pixels, k).count
    decreases k
  {
    if k > 0 {
      UniformUpTo(table, pixels, k - 1, temp);
      var before := TotalsUpTo(table, pixels, k - 1);
      assert temp * (before.count + 1) == temp * before.count + temp;
    }
  }

  /** Accumulators whose Fahrenheit sum is `temp` per match average to exactly `temp`. */
  lemma UniformMean(t: Totals, temp: int)
    requires t.sumF == temp * t.count
    ensures MeanOf(t).Some? ==> MeanOf(t).value.fahrenheit == temp as real
  {
    if t.count > 0 {
      var q, c := MeanOf(t).value.fahrenheit, t.count as real;
      assert t.sumF as real == temp as real * c;
      assert (q - temp as real) * c == 0.0;
    }
  }

  /** When every row has the same Fahrenheit temperature, the Fahrenheit sum is
      that temperature times the count, and the Fahrenheit mean, when there is
      one, is exactly that temperature. */
  lemma UniformFahrenheitMean(table: seq<ColorInfo>, pixels: seq<int>, limit: int, temp: int)
    requires forall j :: 0 <= j < |table| ==> table[j].temperatureF == temp
    ensures ScanTotals(table, pixels, limit).sumF == temp * ScanTotals(table, pixels, limit).count
    ensures MeanOf(ScanTotals(table, pixels, limit)).Some? ==>
              MeanOf(ScanTotals(table, pixels, limit)).value.fahrenheit == temp as real
  {
    UniformUpTo(table, pixels, ScanLength(table, pixels, limit), temp);
    UniformMean(ScanTotals(table, pixels, limit), temp);
  }

  /** A worked case: keys 1 (32 F, 0 C) and 2 (50 F, 10 C), pixels 1, 1, 2, 99,
      2 and a limit of 10. Pixel 99 matches nothing, the other four match, and
      the averages are 41 F and 5 C. */
  lemma TwoRowExample(r1: ColorInfo, r2: ColorInfo)
    requires r1.hexCode == 1 && r1.temperatureF == 32 && r1.temperatureC == 0
    requires r2.hexCode == 2 && r2.temperatureF == 50 && r2.temperatureC == 10
    ensures ScanTotals([r1, r2], [1, 1, 2, 99, 2], 10) == Totals(164, 20, 4)
    ensures MeanOf(ScanTotals([r1, r2], [1, 1, 2, 99, 2], 10)) == Some(Mean(41.0, 5.0))
  {
    var table := [r1, r2];
    var pixels := [1, 1, 2, 99, 2];
    CountBounds(table, pixels, 10);
    assert ScanLength(table, pixels, 10) == 5;
    assert FirstMatch(table, 1) == Some(0);
    assert FirstMatch(table, 2) == Some(1);
    assert FirstMatch(table, 99) == None;
    assert TotalsUpTo(table, pixels, 1) == Totals(32, 0, 1);
    assert TotalsUpTo(table, pixels, 2) == Totals(64, 0, 2);
    assert TotalsUpTo(table, pixels, 3) == Totals(114, 10, 3);
    assert TotalsUpTo(table, pixels, 4) == Totals(114, 10, 3);
    assert TotalsUpTo(table, pixels, 5) == Totals(164, 20, 4);
  }
}
