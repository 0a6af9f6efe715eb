/**
 * The rule engine of FraudRuleService: two configurable rules, looked up by their exact
 * name, are applied to each claim in turn, and every match is recorded as a violation
 * (claim's ClaimID, rule's ruleID). Claims named by a violation are then marked
 * Fraud Detected in place.
 */
module FraudRules {
  import opened Wrappers
  import opened Seqs
  import opened Model

  const EXCESSIVE_AMOUNT_RULE: string := "Exclusive Claim Amount"
  const BLOCKED_HOSPITALS_RULE: string := "Blocked Hospitals"

  /** rules.find(r => r.ruleName === name): the first rule with exactly that name. */
  function FindRule(rules: seq<FraudRule>, name: string): (r: Option<FraudRule>)
    ensures r.None? <==> forall i | 0 <= i < |rules| :: rules[i].ruleName != name
    ensures r.Some? ==> exists i | 0 <= i < |rules| ::
              rules[i] == r.value && r.value.ruleName == name && forall j | 0 <= j < i :: rules[j].ruleName != name
  {
    Find(rules, (rule: FraudRule) => rule.ruleName == name)
  }

  /**
   * The amount rule when it is in force: its ruleID and threshold. An absent rule, a missing
   * threshold and a zero threshold (all falsy) leave the rule inert.
   */
  function AmountRule(rules: seq<FraudRule>): (r: Option<(string, int)>)
    ensures r.Some? <==> FindRule(rules, EXCESSIVE_AMOUNT_RULE).Some?
                         && FindRule(rules, EXCESSIVE_AMOUNT_RULE).value.thresholdValue.Some?
                         && FindRule(rules, EXCESSIVE_AMOUNT_RULE).value.thresholdValue.value != 0
    ensures r.Some? ==> r.value.0 == FindRule(rules, EXCESSIVE_AMOUNT_RULE).value.ruleID
                        && Some(r.value.1) == FindRule(rules, EXCESSIVE_AMOUNT_RULE).value.thresholdValue
  {
    match FindRule(rules, EXCESSIVE_AMOUNT_RULE)
    case None => None
    case Some(rule) =>
      match rule.thresholdValue
      case None => None
      case Some(t) => if t == 0 then None else Some((rule.ruleID, t))
  }

  /** The hospital rule when it is in force: its ruleID and blocked list (an empty list is in force). */
  function HospitalRule(rules: seq<FraudRule>): (r: Option<(string, seq<string>)>)
    ensures r.Some? <==> FindRule(rules, BLOCKED_HOSPITALS_RULE).Some?
                         && FindRule(rules, BLOCKED_HOSPITALS_RULE).value.blockedHospitals.Some?
    ensures r.Some? ==> r.value.0 == FindRule(rules, BLOCKED_HOSPITALS_RULE).value.ruleID
                        && Some(r.value.1) == FindRule(rules, BLOCKED_HOSPITALS_RULE).value.blockedHospitals
  {
    match FindRule(rules, BLOCKED_HOSPITALS_RULE)
    case None => None
    case Some(rule) =>
      match rule.blockedHospitals
      case None => None
      case Some(hs) => Some((rule.ruleID, hs))
  }

  function OverThreshold(t: int): Claim -> bool {
    (c: Claim) => c.Amount > t
  }

  function AtBlockedHospital(hospitals: seq<string>): Claim -> bool {
    (c: Claim) => c.HospitalName in hospitals
  }

  function ViolationOf(ruleID: string): Claim -> RuleViolation {
    (c: Claim) => RuleViolation(c.ClaimID, ruleID)
  }

  /** The violations one rule records: one per matching claim, in claim order. */
  function RuleViolations(claims: seq<Claim>, matches: Claim -> bool, ruleID: string): seq<RuleViolation> {
    MapSeq(Filter(claims, matches), ViolationOf(ruleID))
  }

  /** What applyExcessiveClaimAmountRule records. */
  function AmountViolations(claims: seq<Claim>, rules: seq<FraudRule>): seq<RuleViolation> {
    match AmountRule(rules)
    case None => []
    case Some((ruleID, t)) => RuleViolations(claims, OverThreshold(t), ruleID)
  }

  /** What applyBlockedHospitalsRule records. */
  function HospitalViolations(claims: seq<Claim>, rules: seq<FraudRule>): seq<RuleViolation> {
    match HospitalRule(rules)
    case None => []
    case Some((ruleID, hospitals)) => RuleViolations(claims, AtBlockedHospital(hospitals), ruleID)
  }

  /** Rules are applied to the claims one after another: the violations of a concatenation concatenate. */
  lemma RuleViolationsConcat(a: seq<Claim>, b: seq<Claim>, matches: Claim -> bool, ruleID: string)
    ensures RuleViolations(a + b, matches, ruleID) == RuleViolations(a, matches, ruleID) + RuleViolations(b, matches, ruleID)
  {
    FilterConcat(a, b, matches);
    MapSeqConcat(Filter(a, matches), Filter(b, matches), ViolationOf(ruleID));
  }

  /** One claim yields at most one violation per rule, carrying its ClaimID and the rule's id. */
  lemma RuleViolationsSingle(c: Claim, matches: Claim -> bool, ruleID: string)
    ensures RuleViolations([c], matches, ruleID) == if matches(c) then [RuleViolation(c.ClaimID, ruleID)] else []
  {
    assert [c][..0] == [];
  }

  lemma RuleViolationsSnoc(s: seq<Claim>, c: Claim, matches: Claim -> bool, ruleID: string)
    ensures RuleViolations(s + [c], matches, ruleID)
         == RuleViolations(s, matches, ruleID) + (if matches(c) then [RuleViolation(c.ClaimID, ruleID)] else [])
  {
    RuleViolationsConcat(s, [c], matches, ruleID);
    RuleViolationsSingle(c, matches, ruleID);
  }

  /** A violation is recorded exactly for the matching claims, with their ClaimID and the rule's id. */
  lemma RuleViolationsMembers(claims: seq<Claim>, matches: Claim -> bool, ruleID: string, v: RuleViolation)
    ensures v in RuleViolations(claims, matches, ruleID)
        <==> v.ruleID == ruleID && exists c | c in claims :: matches(c) && c.ClaimID == v.claimID
  {
    var kept := Filter(claims, matches);
    var r := RuleViolations(claims, matches, ruleID);
    if v in r {
      var k :| 0 <= k < |r| && r[k] == v;
      FilterMember(claims, matches, kept[k]);
    }
    if v.ruleID == ruleID && exists c | c in claims :: matches(c) && c.ClaimID == v.claimID {
      var c :| c in claims && matches(c) && c.ClaimID == v.claimID;
      FilterMember(claims, matches, c);
      var k :| 0 <= k < |kept| && kept[k] == c;
      assert r[k] == v;
    }
  }

  /** The amount rule is inert when it is absent or its threshold is missing or zero. */
  lemma AmountRuleInert(claims: seq<Claim>, rules: seq<FraudRule>)
    requires FindRule(rules, EXCESSIVE_AMOUNT_RULE).None?
          || FindRule(rules, EXCESSIVE_AMOUNT_RULE).value.thresholdValue in {None, Some(0)}
    ensures AmountViolations(claims, rules) == []
  {
  }

  /**
   * With the amount rule in force, a violation with its id is recorded for a ClaimID exactly
   * when some claim with that ClaimID has an amount strictly above the threshold.
   */
  lemma AmountViolationIff(claims: seq<Claim>, rules: seq<FraudRule>, claimID: string)
    requires AmountRule(rules).Some?
    ensures var (ruleID, t) := AmountRule(rules).value;
            (RuleViolation(claimID, ruleID) in AmountViolations(claims, rules)
             <==> exists c | c in claims :: c.ClaimID == claimID && c.Amount > t)
  {
    var (ruleID, t) := AmountRule(rules).value;
    RuleViolationsMembers(claims, OverThreshold(t), ruleID, RuleViolation(claimID, ruleID));
  }

  /** An amount equal to the threshold is not a violation: the comparison is strict. */
  lemma AmountAtThresholdNoViolation(c: Claim, rules: seq<FraudRule>)
    requires AmountRule(rules).Some? && c.Amount == AmountRule(rules).value.1
    ensures AmountViolations([c], rules) == []
  {
    var (ruleID, t) := AmountRule(rules).value;
    RuleViolationsSingle(c, OverThreshold(t), ruleID);
  }

  /** The hospital rule is inert only when it is absent or has no list. */
  lemma HospitalRuleInert(claims: seq<Claim>, rules: seq<FraudRule>)
    requires FindRule(rules, BLOCKED_HOSPITALS_RULE).None?
          || FindRule(rules, BLOCKED_HOSPITALS_RULE).value.blockedHospitals.None?
    ensures HospitalViolations(claims, rules) == []
  {
  }

  /**
   * With the hospital rule in force, a violation with its id is recorded for a ClaimID exactly
   * when some claim with that ClaimID names a hospital that is an element of the list.
   */
  lemma HospitalViolationIff(claims: seq<Claim>, rules: seq<FraudRule>, claimID: string)
    requires HospitalRule(rules).Some?
    ensures var (ruleID, hospitals) := HospitalRule(rules).value;
            (RuleViolation(claimID, ruleID) in HospitalViolations(claims, rules)
             <==> exists c | c in claims :: c.ClaimID == claimID && c.HospitalName in hospitals)
  {
    var (ruleID, hospitals) := HospitalRule(rules).value;
    RuleViolationsMembers(claims, AtBlockedHospital(hospitals), ruleID, RuleViolation(claimID, ruleID));
  }

  function NamesClaim(claimID: string): RuleViolation -> bool {
    (v: RuleViolation) => v.claimID == claimID
  }

  function CarriesClaimId(claimID: string): Claim -> bool {
    (c: Claim) => c.ClaimID == claimID
  }

  /**
   * A rule records at most one violation per claim: no more of its violations name a ClaimID
   * than there are claims carrying that ClaimID.
   */
  lemma {:induction false} AtMostOnePerClaim(claims: seq<Claim>, matches: Claim -> bool, ruleID: string, claimID: string)
    ensures |Filter(RuleViolations(claims, matches, ruleID), NamesClaim(claimID))| <= |Filter(claims, CarriesClaimId(claimID))|
  {
    if claims != [] {
      var front, c := claims[..|claims| - 1], claims[|claims| - 1];
      assert claims == front + [c];
      AtMostOnePerClaim(front, matches, ruleID, claimID);
      RuleViolationsSnoc(front, c, matches, ruleID);
      var tail := if matches(c) then [RuleViolation(c.ClaimID, ruleID)] else [];
      FilterConcat(RuleViolations(front, matches, ruleID), tail, NamesClaim(claimID));
      FilterSnoc(front, c, CarriesClaimId(claimID));
      if matches(c) {
        FilterSnoc([], RuleViolation(c.ClaimID, ruleID), NamesClaim(claimID));
      }
    }
  }

  /** The ClaimIDs named by the violations (new Set(violations.map(v => v.claimID))). */
  function ViolatingIds(violations: seq<RuleViolation>): set<string> {
    set i | 0 <= i < |violations| :: violations[i].claimID
  }

  /** Every claim whose ClaimID is in `ids` becomes Fraud Detected; the others stay as they are. */
  function MarkViolating(claims: seq<Claim>, ids: set<string>): (r: seq<Claim>)
    ensures |r| == |claims|
  {
    seq(|claims|, i requires 0 <= i < |claims| =>
      if claims[i].ClaimID in ids then claims[i].(Status := FRAUD_DETECTED) else claims[i])
  }

  /** Marking changes only the status, and only of the claims named by a violation. */
  lemma MarkViolatingEffect(claims: seq<Claim>, ids: set<string>, i: int)
    requires 0 <= i < |claims|
    ensures var c, c' := claims[i], MarkViolating(claims, ids)[i];
            c'.(Status := c.Status) == c &&
            (c.ClaimID in ids ==> c'.Status == FRAUD_DETECTED) &&
            (c.ClaimID !in ids ==> c' == c)
  {
  }

  /** Marking twice is marking once. */
  lemma MarkViolatingIdempotent(claims: seq<Claim>, ids: set<string>)
    ensures MarkViolating(MarkViolating(claims, ids), ids) == MarkViolating(claims, ids)
  {
  }

  /**
   * The service's recording side: `recorded` is the sequence of violations posted so far,
   * in posting order.
   */
  class FraudRuleService {
    var recorded: seq<RuleViolation>

    constructor()
      ensures recorded == []
    {
      recorded := [];
    }

    /** recordViolation: one more violation is posted. */
    method RecordViolation(claimID: string, ruleID: string)
      modifies this
      ensures recorded == old(recorded) + [RuleViolation(claimID, ruleID)]
    {
      recorded := recorded + [RuleViolation(claimID, ruleID)];
    }

    /** applyRules: the amount rule over all claims, then the hospital rule over all claims. */
    method ApplyRules(claims: seq<Claim>, rules: seq<FraudRule>)
      modifies this
      ensures recorded == old(recorded) + AmountViolations(claims, rules) + HospitalViolations(claims, rules)
    {
      ApplyExcessiveClaimAmountRule(claims, rules);
      ApplyBlockedHospitalsRule(claims, rules);
    }

    /** applyExcessiveClaimAmountRule. */
    method ApplyExcessiveClaimAmountRule(claims: seq<Claim>, rules: seq<FraudRule>)
      modifies this
      ensures recorded == old(recorded) + AmountViolations(claims, rules)
    {
      var rule := FindRule(rules, EXCESSIVE_AMOUNT_RULE);
      if rule.None? || rule.value.thresholdValue.None? || rule.value.thresholdValue.value == 0 {
        return;
      }
      var threshold := rule.value.thresholdValue.value;
      for i := 0 to |claims|
        invariant recorded == old(recorded) + RuleViolations(claims[..i], OverThreshold(threshold), rule.value.ruleID)
      {
        var claim := claims[i];
        assert claims[..i + 1] == claims[..i] + [claim];
        RuleViolationsSnoc(claims[..i], claim, OverThreshold(threshold), rule.value.ruleID);
        if claim.Amount > threshold {
          RecordViolation(claim.ClaimID, rule.value.ruleID);
        }
      }
      assert claims[..|claims|] == claims;
    }

    /** applyBlockedHospitalsRule. */
    method ApplyBlockedHospitalsRule(claims: seq<Claim>, rules: seq<FraudRule>)
      modifies this
      ensures recorded == old(recorded) + HospitalViolations(claims, rules)
    {
      var rule := FindRule(rules, BLOCKED_HOSPITALS_RULE);
      if rule.None? || rule.value.blockedHospitals.None? {
        return;
      }
      var hospitals := rule.value.blockedHospitals.value;
      for i := 0 to |claims|
        invariant recorded == old(recorded) + RuleViolations(claims[..i], AtBlockedHospital(hospitals), rule.value.ruleID)
      {
        var claim := claims[i];
        assert claims[..i + 1] == claims[..i] + [claim];
        RuleViolationsSnoc(claims[..i], claim, AtBlockedHospital(hospitals), rule.value.ruleID);
        if claim.HospitalName in hospitals {
          RecordViolation(claim.ClaimID, rule.value.ruleID);
        }
      }
      assert claims[..|claims|] == claims;
    }

    /** updateClaimStatusForViolations: marks the passed claims in place. */
    method UpdateClaimStatusForViolations(claims: array<Claim>, violations: seq<RuleViolation>)
      modifies claims
      ensures claims[..] == MarkViolating(old(claims[..]), ViolatingIds(violations))
    {
      var violatingIDs := ViolatingIds(violations);
      for i := 0 to claims.Length
        invariant claims[..i] == MarkViolating(old(claims[..]), violatingIDs)[..i]
        invariant claims[i..] == old(claims[..])[i..]
      {
        if claims[i].ClaimID in violatingIDs {
          claims[i] := claims[i].(Status := FRAUD_DETECTED);
        }
      }
    }
  }
}
