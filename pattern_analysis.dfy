/**
 * The risk scorer of PatternAnalysis.analyzePatterns: every policy holder that appears among
 * the new claims gets a fraud score, the sum of fraud-history points and claim-frequency
 * points computed over the claims that are not Rejected, and every new claim of that holder
 * that is not Rejected receives a RiskScore carrying the holder's score and risk level.
 *
 * Claim dates are turned into millisecond timestamps by `stamp` (what new Date(d).getTime()
 * does); the generated ScoreID of the k-th score is `scoreId(k)` and the analysis date is
 * `analysisDate`.
 */
module PatternAnalysis {
  import opened Wrappers
  import opened Seqs
  import opened Model

  /** 1000 * 60 * 60 * 24 * 365.25: the milliseconds of a Julian year, an exact integer. */
  const MS_YEAR: int := 31_557_600_000

  predicate NotRejected(c: Claim) {
    c.Status != REJECTED
  }

  function HolderOf(c: Claim): string {
    c.PolicyHolderID
  }

  function OfHolder(h: string): Claim -> bool {
    (c: Claim) => c.PolicyHolderID == h
  }

  /** The claims the history count looks for: Rejected or Fraud Detected, of holder `h`. */
  function FlaggedOfHolder(h: string): Claim -> bool {
    (c: Claim) => c.PolicyHolderID == h && (c.Status == REJECTED || c.Status == FRAUD_DETECTED)
  }

  function FraudDetectedOfHolder(h: string): Claim -> bool {
    (c: Claim) => c.PolicyHolderID == h && c.Status == FRAUD_DETECTED
  }

  /** The new claims of holder `h` that receive a score. */
  function NewOfHolder(h: string): Claim -> bool {
    (c: Claim) => c.PolicyHolderID == h && c.Status != REJECTED
  }

  /** The population both sub-scores are computed over: existing then new claims, Rejected ones removed. */
  function WorkingSet(existing: seq<Claim>, newClaims: seq<Claim>): seq<Claim> {
    Filter(existing, NotRejected) + Filter(newClaims, NotRejected)
  }

  /** A claim is in the working set exactly when it is an existing or new claim that is not Rejected. */
  lemma WorkingSetMembers(existing: seq<Claim>, newClaims: seq<Claim>, c: Claim)
    ensures c in WorkingSet(existing, newClaims) <==> (c in existing || c in newClaims) && c.Status != REJECTED
  {
    FilterMember(existing, NotRejected, c);
    FilterMember(newClaims, NotRejected, c);
  }

  /** calculateFraudHistoryPoints: 60 for three or more flagged claims of the holder, 30 for one or two. */
  function FraudHistoryPoints(h: string, all: seq<Claim>): (p: nat)
    ensures p == 0 || p == 30 || p == 60
    ensures p == 60 <==> |Filter(all, FlaggedOfHolder(h))| >= 3
    ensures p == 0 <==> |Filter(all, FlaggedOfHolder(h))| == 0
  {
    var flagged := |Filter(all, FlaggedOfHolder(h))|;
    if flagged >= 3 then 60 else if flagged >= 1 then 30 else 0
  }

  /**
   * Because Rejected claims were removed from the working set first, the history count
   * sees only the holder's Fraud Detected claims.
   */
  lemma HistoryCountsOnlyFraudDetected(existing: seq<Claim>, newClaims: seq<Claim>, h: string)
    ensures Filter(WorkingSet(existing, newClaims), FlaggedOfHolder(h))
         == Filter(WorkingSet(existing, newClaims), FraudDetectedOfHolder(h))
  {
    var w := WorkingSet(existing, newClaims);
    forall i | 0 <= i < |w| ensures FlaggedOfHolder(h)(w[i]) == FraudDetectedOfHolder(h)(w[i]) {
      WorkingSetMembers(existing, newClaims, w[i]);
    }
    FilterSameOn(w, FlaggedOfHolder(h), FraudDetectedOfHolder(h));
  }

  /** The earliest claim date (the first element after sorting by date). */
  function EarliestStamp(cs: seq<Claim>, stamp: string -> int): (m: int)
    requires cs != []
    ensures forall i | 0 <= i < |cs| :: m <= stamp(cs[i].ClaimDate)
    ensures exists i | 0 <= i < |cs| :: m == stamp(cs[i].ClaimDate)
  {
    if |cs| == 1 then stamp(cs[0].ClaimDate)
    else
      var rest := EarliestStamp(cs[1..], stamp);
      var here := stamp(cs[0].ClaimDate);
      if here <= rest then here else rest
  }

  /** The latest claim date (the last element after sorting by date). */
  function LatestStamp(cs: seq<Claim>, stamp: string -> int): (m: int)
    requires cs != []
    ensures forall i | 0 <= i < |cs| :: stamp(cs[i].ClaimDate) <= m
    ensures exists i | 0 <= i < |cs| :: m == stamp(cs[i].ClaimDate)
  {
    if |cs| == 1 then stamp(cs[0].ClaimDate)
    else
      var rest := LatestStamp(cs[1..], stamp);
      var here := stamp(cs[0].ClaimDate);
      if here >= rest then here else rest
  }

  /** Points for a per-year claim rate that is the raw claim count. */
  function CountPoints(n: nat): (p: nat)
    ensures p == (if n >= 7 then 40 else if n >= 4 then 20 else 0)
  {
    if n >= 7 then 40 else if n >= 4 then 20 else 0
  }

  /**
   * The points for `n` claims whose dates span `spanMs` milliseconds. With
   * span = spanMs / MS_YEAR, the rate is the claim count when span <= 0.5 or there is one
   * claim, and count / span otherwise; both comparisons are written as exact integer
   * cross-multiplications.
   */
  function RatePointsFor(n: nat, spanMs: int): (p: nat)
    ensures p == 0 || p == 20 || p == 40
    ensures n <= 3 && (2 * spanMs <= MS_YEAR || n == 1) ==> p == 0
  {
    if 2 * spanMs <= MS_YEAR || n == 1 then CountPoints(n)
    else if n * MS_YEAR >= 7 * spanMs then 40
    else if n * MS_YEAR >= 4 * spanMs then 20
    else 0
  }

  /** calculateClaimFrequencyPoints: no claims give no points. */
  function ClaimFrequencyPoints(holderClaims: seq<Claim>, stamp: string -> int): (p: nat)
    ensures p == 0 || p == 20 || p == 40
    ensures |holderClaims| <= 1 ==> p == 0
  {
    if holderClaims == [] then 0
    else RatePointsFor(|holderClaims|, LatestStamp(holderClaims, stamp) - EarliestStamp(holderClaims, stamp))
  }

  /** The source's perYear, in exact real arithmetic. */
  ghost function PerYear(n: nat, spanMs: int): real {
    var span := spanMs as real / MS_YEAR as real;
    if span <= 0.5 || n == 1 then n as real else n as real / span
  }

  /** The source's thresholds on perYear. */
  ghost function RatePoints(perYear: real): nat {
    if perYear >= 7.0 then 40 else if perYear >= 4.0 then 20 else 0
  }

  lemma ScaleCompare(x: real, y: real, m: real)
    requires m > 0.0
    ensures x <= y <==> x * m <= y * m
  {
    if x <= y {
      assert (y - x) * m >= 0.0;
    } else {
      assert (x - y) * m > 0.0;
    }
  }

  lemma QuotientBound(x: real, y: real, c: real)
    requires y > 0.0
    ensures x / y >= c <==> x >= c * y
  {
    var q := x / y;
    assert q * y == x;
    ScaleCompare(c, q, y);
  }

  /** The integer cross-multiplication agrees with the source's division-based rule. */
  lemma RatePointsMatchRealRule(n: nat, spanMs: int)
    ensures RatePointsFor(n, spanMs) == RatePoints(PerYear(n, spanMs))
  {
    var m := MS_YEAR as real;
    var s := spanMs as real;
    var span := s / m;
    assert span * m == s;
    ScaleCompare(span, 0.5, m);
    assert span <= 0.5 <==> 2 * spanMs <= MS_YEAR;
    if !(span <= 0.5 || n == 1) {
      QuotientBound(n as real, span, 7.0);
      QuotientBound(n as real, span, 4.0);
      ScaleCompare(7.0 * span, n as real, m);
      ScaleCompare(4.0 * span, n as real, m);
      assert 7.0 * span * m == 7.0 * s;
      assert 4.0 * span * m == 4.0 * s;
    }
  }

  /** calculateClaimFrequencyPoints agrees with the source's perYear thresholds. */
  lemma {:induction false} FrequencyPointsMatchRealRule(holderClaims: seq<Claim>, stamp: string -> int)
    requires holderClaims != []
    ensures ClaimFrequencyPoints(holderClaims, stamp)
         == RatePoints(PerYear(|holderClaims|, LatestStamp(holderClaims, stamp) - EarliestStamp(holderClaims, stamp)))
  {
    var spanMs := LatestStamp(holderClaims, stamp) - EarliestStamp(holderClaims, stamp);
    assert ClaimFrequencyPoints(holderClaims, stamp) == RatePointsFor(|holderClaims|, spanMs);
    RatePointsMatchRealRule(|holderClaims|, spanMs);
  }

  /** mapScoreToRiskLevel. */
  function RiskLevelFor(value: int): (level: string)
    ensures level == HIGH <==> value >= 71
    ensures level == MEDIUM <==> 31 <= value <= 70
    ensures level == LOW <==> value <= 30
  {
    if value >= 71 then HIGH else if value >= 31 then MEDIUM else LOW
  }

  /** The score of holder `h` over the working population `all`. */
  function HolderScore(all: seq<Claim>, h: string, stamp: string -> int): int {
    FraudHistoryPoints(h, all) + ClaimFrequencyPoints(Filter(all, OfHolder(h)), stamp)
  }

  /** The possible scores, and when a holder is HIGH risk: full history points and some frequency points. */
  lemma ScoreShape(all: seq<Claim>, h: string, stamp: string -> int)
    ensures HolderScore(all, h, stamp) in {0, 20, 30, 40, 50, 60, 70, 80, 100}
    ensures RiskLevelFor(HolderScore(all, h, stamp)) == HIGH
        <==> FraudHistoryPoints(h, all) == 60 && ClaimFrequencyPoints(Filter(all, OfHolder(h)), stamp) > 0
  {
  }

  /** The distinct holders of the new claims, in first-appearance order (Array.from(new Set(...))). */
  function HolderIds(newClaims: seq<Claim>): seq<string> {
    DedupBy(MapSeq(newClaims, HolderOf), Identity)
  }

  /** For each holder in `hs`, in order, that holder's new claims that are not Rejected. */
  function Grouped(newClaims: seq<Claim>, hs: seq<string>): seq<Claim> {
    if hs == [] then []
    else Grouped(newClaims, hs[..|hs| - 1]) + Filter(newClaims, NewOfHolder(hs[|hs| - 1]))
  }

  /** The new claims that receive a score, in the order their scores are emitted. */
  function ScoredClaims(newClaims: seq<Claim>): seq<Claim> {
    Grouped(newClaims, HolderIds(newClaims))
  }

  /** The score emitted for new claim `c`: its holder's score and level, and its store id. */
  function ScoreFor(all: seq<Claim>, stamp: string -> int, c: Claim, scoreId: string, analysisDate: string): RiskScore {
    var value := HolderScore(all, c.PolicyHolderID, stamp);
    RiskScore(scoreId, c.id.GetOr(""), value, RiskLevelFor(value), analysisDate)
  }

  function Scores(cs: seq<Claim>, all: seq<Claim>, stamp: string -> int, scoreId: nat -> string, analysisDate: string): (r: seq<RiskScore>)
    ensures |r| == |cs|
  {
    seq(|cs|, k requires 0 <= k < |cs| => ScoreFor(all, stamp, cs[k], scoreId(k), analysisDate))
  }

  /** What analyzePatterns computes before saving the scores. */
  function AnalysisResult(existing: seq<Claim>, newClaims: seq<Claim>, stamp: string -> int,
                          scoreId: nat -> string, analysisDate: string): seq<RiskScore>
  {
    Scores(ScoredClaims(newClaims), WorkingSet(existing, newClaims), stamp, scoreId, analysisDate)
  }

  lemma ScoresSnoc(cs: seq<Claim>, c: Claim, all: seq<Claim>, stamp: string -> int, scoreId: nat -> string, analysisDate: string)
    ensures Scores(cs + [c], all, stamp, scoreId, analysisDate)
         == Scores(cs, all, stamp, scoreId, analysisDate) + [ScoreFor(all, stamp, c, scoreId(|cs|), analysisDate)]
  {
  }

  /** Whether a new claim receives a score when the holders are `hs`. */
  predicate ScoredWith(c: Claim, hs: seq<string>) {
    c.Status != REJECTED && c.PolicyHolderID in hs
  }

  lemma GroupedSnocHolder(s: seq<Claim>, hs: seq<string>, h: string)
    ensures Grouped(s, hs + [h]) == Grouped(s, hs) + Filter(s, NewOfHolder(h))
  {
    assert (hs + [h])[..|hs|] == hs;
  }

  /** Adding one claim adds it to exactly one group, when it is scored at all. */
  lemma {:induction false} GroupedSnoc(s: seq<Claim>, c: Claim, hs: seq<string>)
    requires DistinctKeys(hs, Identity)
    ensures multiset(Grouped(s + [c], hs))
         == multiset(Grouped(s, hs)) + (if ScoredWith(c, hs) then multiset{c} else multiset{})
  {
    if hs != [] {
      var hs', h := hs[..|hs| - 1], hs[|hs| - 1];
      assert hs == hs' + [h];
      assert DistinctKeys(hs', Identity);
      GroupedSnoc(s, c, hs');
      GroupedSnocHolder(s + [c], hs', h);
      GroupedSnocHolder(s, hs', h);
      FilterSnoc(s, c, NewOfHolder(h));
      GroupedHolderDistinct(hs', h);
      var mine := c.Status != REJECTED && c.PolicyHolderID == h;
      assert ScoredWith(c, hs) == (ScoredWith(c, hs') || mine);
      GroupedCombine(Grouped(s + [c], hs'), Filter(s + [c], NewOfHolder(h)),
                     Grouped(s, hs'), Filter(s, NewOfHolder(h)), c, ScoredWith(c, hs'), mine);
    }
  }

  /** The multiset step of GroupedSnoc: `c` joins at most one of the two parts. */
  lemma GroupedCombine(g1: seq<Claim>, f1: seq<Claim>, g0: seq<Claim>, f0: seq<Claim>, c: Claim, a: bool, b: bool)
    requires multiset(g1) == multiset(g0) + (if a then multiset{c} else multiset{})
    requires f1 == f0 + (if b then [c] else [])
    requires !(a && b)
    ensures multiset(g1 + f1) == multiset(g0 + f0) + (if a || b then multiset{c} else multiset{})
  {
  }

  lemma GroupedHolderDistinct(hs': seq<string>, h: string)
    requires DistinctKeys(hs' + [h], Identity)
    ensures h !in hs'
  {
    var hs := hs' + [h];
    forall i | 0 <= i < |hs'| ensures hs'[i] != h {
      assert Identity(hs[i]) != Identity(hs[|hs'|]);
    }
  }

  /** Grouping by holder rearranges the non-Rejected new claims, losing or repeating none. */
  lemma {:induction false} GroupedIsPermutation(s: seq<Claim>, hs: seq<string>)
    requires DistinctKeys(hs, Identity)
    requires forall i | 0 <= i < |s| :: s[i].PolicyHolderID in hs
    ensures multiset(Grouped(s, hs)) == multiset(Filter(s, NotRejected))
  {
    if s == [] {
      assert Grouped(s, hs) == [] by { GroupedOfEmpty(hs); }
    } else {
      var s', c := s[..|s| - 1], s[|s| - 1];
      assert s == s' + [c];
      GroupedIsPermutation(s', hs);
      GroupedSnoc(s', c, hs);
      FilterSnoc(s', c, NotRejected);
    }
  }

  lemma {:induction false} GroupedOfEmpty(hs: seq<string>)
    ensures Grouped([], hs) == []
  {
    if hs != [] {
      GroupedOfEmpty(hs[..|hs| - 1]);
    }
  }

  /** The holder ids are distinct and include the holder of every new claim. */
  lemma HolderIdsCover(newClaims: seq<Claim>)
    ensures DistinctKeys(HolderIds(newClaims), Identity)
    ensures forall i | 0 <= i < |newClaims| :: newClaims[i].PolicyHolderID in HolderIds(newClaims)
  {
    var ids := MapSeq(newClaims, HolderOf);
    DedupDistinct(ids, Identity);
    DedupKeys(ids, Identity);
    forall i | 0 <= i < |newClaims| ensures newClaims[i].PolicyHolderID in HolderIds(newClaims) {
      assert Identity(ids[i]) in KeysOf(ids, Identity);
      var j :| 0 <= j < |HolderIds(newClaims)| && Identity(HolderIds(newClaims)[j]) == Identity(ids[i]);
    }
  }

  /** Exactly one score is emitted per new claim that is not Rejected. */
  lemma ScoredClaimsArePermutation(newClaims: seq<Claim>)
    ensures multiset(ScoredClaims(newClaims)) == multiset(Filter(newClaims, NotRejected))
    ensures |ScoredClaims(newClaims)| == |Filter(newClaims, NotRejected)|
  {
    HolderIdsCover(newClaims);
    GroupedIsPermutation(newClaims, HolderIds(newClaims));
    assert |multiset(ScoredClaims(newClaims))| == |multiset(Filter(newClaims, NotRejected))|;
  }

  /** Pushing the score of a claim of holder `h` extends the scores of the claims before it. */
  lemma PushScore(cs: seq<Claim>, c: Claim, all: seq<Claim>, stamp: string -> int, scoreId: nat -> string,
                  analysisDate: string, h: string, value: int, r: seq<RiskScore>)
    requires r == Scores(cs, all, stamp, scoreId, analysisDate)
    requires c.PolicyHolderID == h && value == HolderScore(all, h, stamp)
    ensures r + [RiskScore(scoreId(|r|), c.id.GetOr(""), value, RiskLevelFor(value), analysisDate)]
         == Scores(cs + [c], all, stamp, scoreId, analysisDate)
  {
    ScoresSnoc(cs, c, all, stamp, scoreId, analysisDate);
  }

  /**
   * analyzePatterns up to the point where the scores are saved: one pass over the distinct
   * holders, computing each holder's score once and pushing one RiskScore per new,
   * non-Rejected claim of the holder.
   */
  method AnalyzePatterns(existing: seq<Claim>, newClaims: seq<Claim>, stamp: string -> int,
                         scoreId: nat -> string, analysisDate: string)
    returns (riskScores: seq<RiskScore>)
    ensures riskScores == AnalysisResult(existing, newClaims, stamp, scoreId, analysisDate)
    ensures |riskScores| == |Filter(newClaims, NotRejected)|
  {
    var cleanClaims := Filter(existing, NotRejected);
    var allClaims := cleanClaims + Filter(newClaims, NotRejected);
    riskScores := [];
    var policyHolderIDs := HolderIds(newClaims);
    for i := 0 to |policyHolderIDs|
      invariant riskScores == Scores(Grouped(newClaims, policyHolderIDs[..i]), allClaims, stamp, scoreId, analysisDate)
    {
      var policyHolderID := policyHolderIDs[i];
      var holderClaims := Filter(allClaims, OfHolder(policyHolderID));
      var fraudHistoryPoints := FraudHistoryPoints(policyHolderID, allClaims);
      var claimFrequencyPoints := ClaimFrequencyPoints(holderClaims, stamp);
      var scoreValue := fraudHistoryPoints + claimFrequencyPoints;
      assert scoreValue == HolderScore(allClaims, policyHolderID, stamp);
      var riskLevel := RiskLevelFor(scoreValue);
      var newHolderClaims := Filter(newClaims, NewOfHolder(policyHolderID));
      FilterAllSatisfy(newClaims, NewOfHolder(policyHolderID));
      ghost var done := Grouped(newClaims, policyHolderIDs[..i]);
      for j := 0 to |newHolderClaims|
        invariant riskScores == Scores(done + newHolderClaims[..j], allClaims, stamp, scoreId, analysisDate)
      {
        var claim := newHolderClaims[j];
        assert NewOfHolder(policyHolderID)(claim);
        PushScore(done + newHolderClaims[..j], claim, allClaims, stamp, scoreId, analysisDate, policyHolderID, scoreValue, riskScores);
        PrefixTakeSnoc(done, newHolderClaims, j);
        riskScores := riskScores + [RiskScore(scoreId(|riskScores|), claim.id.GetOr(""), scoreValue, riskLevel, analysisDate)];
      }
      assert newHolderClaims[..|newHolderClaims|] == newHolderClaims;
      TakeSnoc(policyHolderIDs, i);
      GroupedSnocHolder(newClaims, policyHolderIDs[..i], policyHolderID);
    }
    assert policyHolderIDs[..|policyHolderIDs|] == policyHolderIDs;
    ScoredClaimsArePermutation(newClaims);
  }

  /**
   * Each emitted score: the k-th generated id, the store id of the k-th scored claim, that
   * claim's holder score and the level the score maps to.
   */
  lemma ScoreFields(existing: seq<Claim>, newClaims: seq<Claim>, stamp: string -> int,
                    scoreId: nat -> string, analysisDate: string, k: nat)
    requires k < |ScoredClaims(newClaims)|
    ensures var r := AnalysisResult(existing, newClaims, stamp, scoreId, analysisDate);
            var c := ScoredClaims(newClaims)[k];
            r[k].ScoreID == scoreId(k) &&
            r[k].ClaimID == c.id.GetOr("") &&
            r[k].ScoreValue == HolderScore(WorkingSet(existing, newClaims), c.PolicyHolderID, stamp) &&
            c.Status != REJECTED && c in newClaims &&
            r[k].RiskLevel == RiskLevelFor(r[k].ScoreValue) &&
            r[k].AnalysisDate == analysisDate
  {
    ScoredClaimsArePermutation(newClaims);
    var cs := ScoredClaims(newClaims);
    assert cs[k] in multiset(Filter(newClaims, NotRejected));
    FilterMember(newClaims, NotRejected, cs[k]);
  }

  /** All scores emitted for one holder carry the same value and level. */
  lemma SameHolderSameScore(existing: seq<Claim>, newClaims: seq<Claim>, stamp: string -> int,
                            scoreId: nat -> string, analysisDate: string, k1: nat, k2: nat)
    requires k1 < |ScoredClaims(newClaims)| && k2 < |ScoredClaims(newClaims)|
    requires ScoredClaims(newClaims)[k1].PolicyHolderID == ScoredClaims(newClaims)[k2].PolicyHolderID
    ensures var r := AnalysisResult(existing, newClaims, stamp, scoreId, analysisDate);
            r[k1].ScoreValue == r[k2].ScoreValue && r[k1].RiskLevel == r[k2].RiskLevel
  {
    var cs := ScoredClaims(newClaims);
    var all := WorkingSet(existing, newClaims);
    var r := AnalysisResult(existing, newClaims, stamp, scoreId, analysisDate);
    assert r[k1] == ScoreFor(all, stamp, cs[k1], scoreId(k1), analysisDate);
    assert r[k2] == ScoreFor(all, stamp, cs[k2], scoreId(k2), analysisDate);
  }

  /** No new claims, no scores. */
  lemma NoNewClaimsNoScores(existing: seq<Claim>, stamp: string -> int, scoreId: nat -> string, analysisDate: string)
    ensures AnalysisResult(existing, [], stamp, scoreId, analysisDate) == []
  {
    ScoredClaimsArePermutation([]);
  }
}
