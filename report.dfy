/**
 * The fraud and compliance report: the counts it derives from the stored claims and cases,
 * the monthly chart of flagged claims, and the most-frequent-item helper.
 */
module Report {
  import opened Wrappers
  import opened Seqs
  import opened Model

  // ---------------------------------------------------------------------------------------
  // Counts

  function IsRejected(c: Claim): bool { c.Status == REJECTED }

  /** flaggedClaimsCount: the claims whose status is 'Rejected'. */
  function FlaggedClaimsCount(claims: seq<Claim>): nat {
    |Filter(claims, IsRejected)|
  }

  /** fraudCases: the cases flagged as fraud. */
  function FraudCases(cases: seq<Case>): nat {
    |Filter(cases, (c: Case) => c.isFraud)|
  }

  /** truePositives, as written: `c.isFraud && c.isFraud`. */
  function TruePositives(cases: seq<Case>): nat {
    |Filter(cases, (c: Case) => c.isFraud && c.isFraud)|
  }

  /** falsePositives, as written: `!c.isFraud && c.isFraud`. */
  function FalsePositives(cases: seq<Case>): nat {
    |Filter(cases, (c: Case) => !c.isFraud && c.isFraud)|
  }

  /** falseNegatives, as written: `c.isFraud && !c.isFraud`. */
  function FalseNegatives(cases: seq<Case>): nat {
    |Filter(cases, (c: Case) => c.isFraud && !c.isFraud)|
  }

  /** The true negatives of detectionAccuracy: `!c.isFraud && !c.isFraud`. */
  function TrueNegatives(cases: seq<Case>): nat {
    |Filter(cases, (c: Case) => !c.isFraud && !c.isFraud)|
  }

  /**
   * Each pair of conditions tests one flag against itself, so false positives and false
   * negatives are always 0, true positives are the fraud cases, and true positives and true
   * negatives together are all cases (the accuracy is always 100% of a non-empty list).
   */
  lemma MetricsIdentities(cases: seq<Case>)
    ensures FalsePositives(cases) == 0 && FalseNegatives(cases) == 0
    ensures TruePositives(cases) == FraudCases(cases)
    ensures TruePositives(cases) + TrueNegatives(cases) == |cases|
  {
    FilterNone(cases, (c: Case) => !c.isFraud && c.isFraud);
    FilterNone(cases, (c: Case) => c.isFraud && !c.isFraud);
    FilterSameOn(cases, (c: Case) => c.isFraud && c.isFraud, (c: Case) => c.isFraud);
    FilterComplementCount(cases, (c: Case) => c.isFraud && c.isFraud, (c: Case) => !c.isFraud && !c.isFraud);
  }

  // ---------------------------------------------------------------------------------------
  // The monthly chart

  /** The months the chart shows, in order. */
  const CHART_MONTHS: seq<string> := ["Jul", "Aug", "Sep", "Oct", "Nov", "Dec"]

  /**
   * monthlyCounts: the flagged claims counted per month name. `monthOf` stands for the short
   * month name of the claim's date.
   */
  function MonthlyCounts(claims: seq<Claim>, monthOf: Claim -> string): (counts: map<string, nat>)
    ensures forall m :: m in counts <==> exists i | 0 <= i < |claims| :: IsRejected(claims[i]) && monthOf(claims[i]) == m
    ensures forall m | m in counts :: counts[m] == FlaggedInMonth(claims, monthOf, m)
  {
    if claims == [] then map[]
    else
      var init := claims[..|claims| - 1];
      var c := claims[|claims| - 1];
      var acc := MonthlyCounts(init, monthOf);
      MonthlyCountsStep(init, c, claims, monthOf, acc);
      CountClaim(acc, c, monthOf)
  }

  /** One more claim counted: its month gains one when it is flagged. */
  function CountClaim(acc: map<string, nat>, c: Claim, monthOf: Claim -> string): map<string, nat> {
    if IsRejected(c) then acc[monthOf(c) := (if monthOf(c) in acc then acc[monthOf(c)] else 0) + 1] else acc
  }

  lemma MonthlyCountsStep(init: seq<Claim>, c: Claim, claims: seq<Claim>, monthOf: Claim -> string, acc: map<string, nat>)
    requires claims == init + [c]
    requires forall m :: m in acc <==> exists i | 0 <= i < |init| :: IsRejected(init[i]) && monthOf(init[i]) == m
    requires forall m | m in acc :: acc[m] == FlaggedInMonth(init, monthOf, m)
    ensures var r := CountClaim(acc, c, monthOf);
            (forall m :: m in r <==> exists i | 0 <= i < |claims| :: IsRejected(claims[i]) && monthOf(claims[i]) == m) &&
            (forall m | m in r :: r[m] == FlaggedInMonth(claims, monthOf, m))
  {
    var r := CountClaim(acc, c, monthOf);
    forall m ensures m in r <==> exists i | 0 <= i < |claims| :: IsRejected(claims[i]) && monthOf(claims[i]) == m {
      if m in acc {
        var i :| 0 <= i < |init| && IsRejected(init[i]) && monthOf(init[i]) == m;
        assert claims[i] == init[i];
      }
      if i :| 0 <= i < |claims| && IsRejected(claims[i]) && monthOf(claims[i]) == m {
        if i < |init| {
          assert init[i] == claims[i];
        }
      }
    }
    forall m | m in r ensures r[m] == FlaggedInMonth(claims, monthOf, m) {
      FlaggedInMonthSnoc(init, c, monthOf, m);
      if m !in acc {
        FlaggedInMonthNone(init, monthOf, m);
      }
    }
  }

  lemma FlaggedInMonthSnoc(init: seq<Claim>, c: Claim, monthOf: Claim -> string, m: string)
    ensures FlaggedInMonth(init + [c], monthOf, m) == FlaggedInMonth(init, monthOf, m) + (if IsRejected(c) && monthOf(c) == m then 1 else 0)
  {
    FilterSnoc(init, c, (c: Claim) => IsRejected(c) && monthOf(c) == m);
  }

  lemma FlaggedInMonthNone(init: seq<Claim>, monthOf: Claim -> string, m: string)
    requires forall i | 0 <= i < |init| :: !(IsRejected(init[i]) && monthOf(init[i]) == m)
    ensures FlaggedInMonth(init, monthOf, m) == 0
  {
    FilterNone(init, (c: Claim) => IsRejected(c) && monthOf(c) == m);
  }

  /** The number of flagged claims of month `m` (0 when there are none). */
  function FlaggedInMonth(claims: seq<Claim>, monthOf: Claim -> string, m: string): nat {
    |Filter(claims, (c: Claim) => IsRejected(c) && monthOf(c) == m)|
  }

  /** monthlyData: one bar per chart month, in order; an absent month counts 0. */
  function MonthlyData(counts: map<string, nat>): (data: seq<(string, nat)>)
    ensures |data| == |CHART_MONTHS|
    ensures forall i | 0 <= i < |data| :: data[i].0 == CHART_MONTHS[i]
  {
    MapSeq(CHART_MONTHS, (m: string) => (m, if m in counts then counts[m] else 0))
  }

  /** Each bar of the chart counts exactly the flagged claims of its month. */
  lemma MonthlyDataCountsFlagged(claims: seq<Claim>, monthOf: Claim -> string)
    ensures var data := MonthlyData(MonthlyCounts(claims, monthOf));
            forall i | 0 <= i < |data| :: data[i].1 == FlaggedInMonth(claims, monthOf, CHART_MONTHS[i])
  {
    var counts := MonthlyCounts(claims, monthOf);
    forall i | 0 <= i < |CHART_MONTHS| ensures MonthlyData(counts)[i].1 == FlaggedInMonth(claims, monthOf, CHART_MONTHS[i]) {
      var m := CHART_MONTHS[i];
      if m !in counts {
        FilterNone(claims, (c: Claim) => IsRejected(c) && monthOf(c) == m);
      }
    }
  }

  /** The largest of `values` and 1. */
  function MaxOrOne(values: seq<nat>): (m: nat)
    ensures m >= 1 && forall i | 0 <= i < |values| :: values[i] <= m
    ensures m == 1 || exists i | 0 <= i < |values| :: values[i] == m
  {
    if values == [] then 1
    else
      var m := MaxOrOne(values[..|values| - 1]);
      var v := values[|values| - 1];
      if v > m then v else m
  }

  /** maxCases: `Math.max(...counts, 1) + 1`, the height of the chart. */
  function MaxCases(data: seq<(string, nat)>): (h: nat)
    ensures h >= 2
    ensures forall i | 0 <= i < |data| :: data[i].1 < h
  {
    MaxOrOne(MapSeq(data, (d: (string, nat)) => d.1)) + 1
  }

  /** The chart is exactly one above its tallest bar, or 2 when every bar is at most 1. */
  lemma MaxCasesTight(data: seq<(string, nat)>)
    ensures MaxCases(data) == 2 || exists i | 0 <= i < |data| :: data[i].1 + 1 == MaxCases(data)
  {
    var values := MapSeq(data, (d: (string, nat)) => d.1);
    if MaxOrOne(values) != 1 {
      var i :| 0 <= i < |values| && values[i] == MaxOrOne(values);
      assert data[i].1 + 1 == MaxCases(data);
    }
  }

  // ---------------------------------------------------------------------------------------
  // getMostFrequent

  /** The occurrences of `x` in `s`. */
  function Count(s: seq<string>, x: string): nat {
    if s == [] then 0 else Count(s[..|s| - 1], x) + (if s[|s| - 1] == x then 1 else 0)
  }

  /** The largest number of occurrences of any item of `s` (the loop's `max`). */
  function MaxCount(s: seq<string>): nat {
    if s == [] then 0
    else
      var m := MaxCount(s[..|s| - 1]);
      var c := Count(s, s[|s| - 1]);
      if c > m then c else m
  }

  /** The loop's `most`: replaced only when an item's count goes strictly above `max`. */
  function Most(s: seq<string>): string
    requires s != []
  {
    var init, x := s[..|s| - 1], s[|s| - 1];
    if init == [] || Count(s, x) > MaxCount(init) then x else Most(init)
  }

  /** MaxCount is the greatest count; Most is an item of the input with that count. */
  lemma {:induction false} MostHasMaxCount(s: seq<string>)
    ensures forall y :: Count(s, y) <= MaxCount(s)
    ensures s != [] ==> Most(s) in s && Count(s, Most(s)) == MaxCount(s)
  {
    if s != [] {
      var init, x := s[..|s| - 1], s[|s| - 1];
      MostHasMaxCount(init);
      assert s == init + [x];
      if init != [] && Count(s, x) <= MaxCount(init) {
        assert Most(init) in s;
      }
    }
  }

  /** Prefixes never have a larger maximal count. */
  lemma {:induction false} MaxCountPrefix(s: seq<string>, n: nat)
    requires n <= |s|
    ensures MaxCount(s[..n]) <= MaxCount(s)
    decreases |s| - n
  {
    if n < |s| {
      MaxCountPrefix(s, n + 1);
      assert s[..n + 1][..n] == s[..n];
    } else {
      assert s[..n] == s;
    }
  }

  /**
   * Among items tied at the maximal count, the result is the one that reached it first: if
   * position `k` is the first at which some prefix attains the maximal count, the result is
   * the item at `k`.
   */
  lemma {:induction false} MostFirstReaches(s: seq<string>, k: nat)
    requires k < |s| && MaxCount(s[..k + 1]) == MaxCount(s)
    requires forall j | 0 < j <= k :: MaxCount(s[..j]) < MaxCount(s)
    ensures Most(s) == s[k]
  {
    var p := s[..k + 1];
    assert p[..k] == s[..k];
    assert Most(p) == s[k] by {
      if k > 0 {
        assert MaxCount(s[..k]) < MaxCount(s);
        assert MaxCount(p) > MaxCount(s[..k]);
      }
    }
    MostStaysAfter(s, k, |s|);
    assert s[..|s|] == s;
  }

  lemma {:induction false} MostStaysAfter(s: seq<string>, k: nat, n: nat)
    requires k < n <= |s| && MaxCount(s[..k + 1]) == MaxCount(s) && Most(s[..k + 1]) == s[k]
    ensures Most(s[..n]) == s[k] && MaxCount(s[..n]) == MaxCount(s)
    decreases n
  {
    if n > k + 1 {
      MostStaysAfter(s, k, n - 1);
      var q := s[..n];
      assert q[..n - 1] == s[..n - 1];
      MaxCountPrefix(s, n);
    }
  }

  /**
   * getMostFrequent: null for an empty list; otherwise the item with the most occurrences,
   * ties going to the item that reached that number first.
   */
  method GetMostFrequent(arr: seq<string>) returns (r: Option<string>)
    ensures arr == [] <==> r.None?
    ensures arr != [] ==> r == Some(Most(arr))
    ensures r.Some? ==> r.value in arr && forall y :: Count(arr, y) <= Count(arr, r.value)
  {
    if |arr| == 0 {
      return None;
    }
    var freq: map<string, nat> := map[];
    var max := 0;
    var most := arr[0];
    for i := 0 to |arr|
      invariant forall y :: y in freq <==> y in arr[..i]
      invariant forall y | y in freq :: freq[y] == Count(arr[..i], y)
      invariant max == MaxCount(arr[..i])
      invariant i > 0 ==> most == Most(arr[..i])
      invariant i == 0 ==> most == arr[0]
    {
      var item := arr[i];
      TakeSnoc(arr, i);
      var prefix := arr[..i + 1];
      assert prefix[..i] == arr[..i];
      if item !in freq {
        CountAbsent(arr[..i], item);
      }
      var count := (if item in freq then freq[item] else 0) + 1;
      freq := freq[item := count];
      if count > max {
        max := count;
        most := item;
      }
    }
    assert arr[..|arr|] == arr;
    MostHasMaxCount(arr);
    return Some(most);
  }

  lemma {:induction false} CountAbsent(s: seq<string>, x: string)
    requires x !in s
    ensures Count(s, x) == 0
  {
    if s != [] {
      assert s[|s| - 1] != x;
      assert forall y | y in s[..|s| - 1] :: y in s;
      CountAbsent(s[..|s| - 1], x);
    }
  }
}
