/**
 * The records the application exchanges with its JSON store, and the status strings
 * it compares them against.
 */
module Model {
  import opened Wrappers

  // Claim statuses (CLAIM_STATUS); note the space in "Fraud Detected".
  const APPROVED: string := "Approved"
  const REJECTED: string := "Rejected"
  const PENDING: string := "Pending"
  const FRAUD_DETECTED: string := "Fraud Detected"

  // Case statuses (CASE_STATUS).
  const CASE_OPEN: string := "Open"
  const CASE_PENDING: string := "Pending"
  const CASE_COMPLETED: string := "Completed"

  // Risk levels written by the pattern analysis.
  const HIGH: string := "HIGH"
  const MEDIUM: string := "MEDIUM"
  const LOW: string := "LOW"

  // User roles.
  const ADMIN_ROLE: string := "admin"
  const INVESTIGATOR_ROLE: string := "investigator"

  // Routes of the application.
  const ADMIN_ROUTE: string := "/admin"
  const INVESTIGATOR_ROUTE: string := "/investigator"
  const LOGIN_ROUTE: string := "/login"

  /**
   * An insurance claim. `id` is the key the JSON store assigns (absent before the claim
   * is stored); `ClaimID` is the business identifier read from the spreadsheet.
   */
  datatype Claim = Claim(
    id: Option<string>,
    ClaimID: string,
    PolicyID: string,
    PolicyHolderID: string,
    Amount: int,
    ClaimDate: string,
    HospitalName: string,
    Status: string)

  /** An investigation case opened for a claim; `investigatorID` is null until assigned. */
  datatype Case = Case(
    id: Option<string>,
    caseID: int,
    claimID: string,
    investigatorID: Option<int>,
    status: string,
    resolutionNotes: string,
    isFraud: bool)

  /** A configurable fraud rule; which parameter matters depends on `ruleName`. */
  datatype FraudRule = FraudRule(
    id: Option<string>,
    ruleID: string,
    ruleName: string,
    description: string,
    thresholdValue: Option<int>,
    blockedHospitals: Option<seq<string>>)

  /** The outcome of the pattern analysis for one claim. */
  datatype RiskScore = RiskScore(
    ScoreID: string,
    ClaimID: string,
    ScoreValue: int,
    RiskLevel: string,
    AnalysisDate: string)

  /** A match between a claim and a rule, as recorded by the rule engine. */
  datatype RuleViolation = RuleViolation(claimID: string, ruleID: string)

  /**
   * A spreadsheet cell as the sheet reader delivers it: text, or a number (integers only;
   * fractional numbers are not part of this model).
   */
  datatype Cell = Text(text: string) | Number(number: int)

  /** A route guard's verdict: let the navigation through, or redirect it (a UrlTree). */
  datatype Decision = Allow | RedirectTo(route: string)

  /** A registered user of the application. */
  datatype User = User(id: int, name: string, email: string, password: string, role: string)
}
