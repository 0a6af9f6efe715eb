/**
 * ClaimsService: the claim store's local state and the spreadsheet ingestion helpers that
 * turn a sheet's rows into claims (header-key normalisation, row-to-claim defaults,
 * first-wins de-duplication by ClaimID), the risk-level to claim-status mapping, and the
 * dashboard counters derived from the stored claims.
 */
module Claims {
  import opened Wrappers
  import opened Seqs
  import opened Text
  import opened Model
  import opened ExcelDate
  import PatternAnalysis

  // ---------------------------------------------------------------------------------------
  // Header keys

  /** The characters the normalisation deletes: the regular-expression class [\s_]. */
  predicate IsSeparator(c: char) {
    IsJsWhitespace(c) || c == '_'
  }

  predicate KeepsChar(c: char) {
    !IsSeparator(c)
  }

  /** key.replace(/[\s_]/g, '').toLowerCase(): "Claim ID" and "claim_id" both become "claimid". */
  function NormalizeKey(key: string): (k: string)
    ensures |k| <= |key|
    ensures forall i | 0 <= i < |k| :: !IsSeparator(k[i]) && !('A' <= k[i] <= 'Z')
  {
    var kept := Filter(key, KeepsChar);
    FilterAllSatisfy(key, KeepsChar);
    assert forall i | 0 <= i < |kept| :: KeepsChar(kept[i]);
    Lower(kept)
  }

  /** A key that is already normalised is left as it is; in particular normalising is idempotent. */
  lemma NormalizeKeyOfNormal(key: string)
    requires forall i | 0 <= i < |key| :: !IsSeparator(key[i]) && !('A' <= key[i] <= 'Z')
    ensures NormalizeKey(key) == key
  {
    FilterKeepsAll(key, KeepsChar);
  }

  lemma NormalizeKeyIdempotent(key: string)
    ensures NormalizeKey(NormalizeKey(key)) == NormalizeKey(key)
  {
    NormalizeKeyOfNormal(NormalizeKey(key));
  }

  /** A sheet row: its header keys with their cells, in the order of the row object's keys. */
  type Row = seq<(string, Cell)>

  /** The normalised row: each cell under its normalised key; a later key overwrites an earlier one. */
  function NormalizedRow(row: Row): map<string, Cell> {
    if row == [] then map[]
    else NormalizedRow(row[..|row| - 1])[NormalizeKey(row[|row| - 1].0) := row[|row| - 1].1]
  }

  /** normalizeRow: fills the normalised object one key at a time. */
  method NormalizeRow(row: Row) returns (normalized: map<string, Cell>)
    ensures normalized == NormalizedRow(row)
  {
    normalized := map[];
    for i := 0 to |row|
      invariant normalized == NormalizedRow(row[..i])
    {
      var (key, value) := row[i];
      var cleanKey := NormalizeKey(key);
      assert row[..i + 1][..i] == row[..i];
      normalized := normalized[cleanKey := value];
    }
    assert row[..|row|] == row;
  }

  /** The normalised keys are exactly the normalisations of the row's keys. */
  lemma {:induction false} NormalizedRowKeys(row: Row)
    ensures NormalizedRow(row).Keys == set i | 0 <= i < |row| :: NormalizeKey(row[i].0)
  {
    if row != [] {
      var init := row[..|row| - 1];
      NormalizedRowKeys(init);
      var s := set i | 0 <= i < |row| :: NormalizeKey(row[i].0);
      var s' := set i | 0 <= i < |init| :: NormalizeKey(init[i].0);
      assert s == s' + {NormalizeKey(row[|row| - 1].0)} by {
        forall k | k in s ensures k in s' + {NormalizeKey(row[|row| - 1].0)} {
          var i :| 0 <= i < |row| && NormalizeKey(row[i].0) == k;
          if i < |init| { assert init[i] == row[i]; }
        }
        forall k | k in s' ensures k in s {
          var i :| 0 <= i < |init| && NormalizeKey(init[i].0) == k;
          assert init[i] == row[i];
        }
      }
    }
  }

  /** When several keys normalise to the same key, the value of the last of them wins. */
  lemma {:induction false} NormalizedRowLastWins(row: Row, i: int)
    requires 0 <= i < |row|
    requires forall j | i < j < |row| :: NormalizeKey(row[j].0) != NormalizeKey(row[i].0)
    ensures NormalizeKey(row[i].0) in NormalizedRow(row)
    ensures NormalizedRow(row)[NormalizeKey(row[i].0)] == row[i].1
  {
    if i < |row| - 1 {
      var init := row[..|row| - 1];
      assert init[i] == row[i];
      NormalizedRowLastWins(init, i);
    }
  }

  // ---------------------------------------------------------------------------------------
  // Row to claim

  /** JavaScript truthiness of a looked-up field: absent, "" and 0 are falsy. */
  predicate Truthy(cell: Option<Cell>) {
    match cell
    case None => false
    case Some(Text(s)) => s != ""
    case Some(Number(n)) => n != 0
  }

  /** String(cell). */
  function CellString(cell: Cell): string {
    match cell
    case Text(s) => s
    case Number(n) => IntToString(n)
  }

  /** Number(text) for a text of decimal digits between optional whitespace; any other text gives 0. */
  function TextAmount(s: string): int {
    var t := Trim(s);
    if t != [] && IsDigits(t) then DigitsValue(t) else 0
  }

  function CellAmount(cell: Cell): int {
    match cell
    case Text(s) => TextAmount(s)
    case Number(n) => n
  }

  /** `field || fallback`, rendered as text. */
  function TextOr(cell: Option<Cell>, fallback: string): (r: string)
    ensures !Truthy(cell) ==> r == fallback
    ensures Truthy(cell) ==> r == CellString(cell.value)
  {
    if Truthy(cell) then CellString(cell.value) else fallback
  }

  function Field(row: map<string, Cell>, key: string): Option<Cell> {
    if key in row then Some(row[key]) else None
  }

  /**
   * mapRowToClaim on a normalised row. `generatedId` stands for the CLM-<time>-<random> id
   * used when the row has no ClaimID; a date cell that toISOString rejects makes the whole
   * conversion fail.
   */
  function MapRowToClaim(row: map<string, Cell>, generatedId: string): (r: Result<Claim, DateError>)
    ensures r.Failure? <==> "claimdate" in row && row["claimdate"].Number? && TimeValueOutOfRange(row["claimdate"].number)
    ensures r.Success? ==>
      var c := r.value;
      c.Status == PENDING && c.id == None &&
      c.ClaimID == TextOr(Field(row, "claimid"), generatedId) &&
      c.PolicyID == TextOr(Field(row, "policyid"), "") &&
      c.PolicyHolderID == TextOr(Field(row, "policyholderid"), "0") &&
      c.HospitalName == TextOr(Field(row, "hospitalname"), "") &&
      (!Truthy(Field(row, "claimamount")) ==> c.Amount == 0) &&
      (Truthy(Field(row, "claimamount")) ==> c.Amount == CellAmount(row["claimamount"]))
  {
    var date := if "claimdate" in row then ConvertExcelDate(row["claimdate"]) else Success("");
    match date
    case Failure(e) => Failure(e)
    case Success(claimDate) =>
      Success(Claim(
        None,
        TextOr(Field(row, "claimid"), generatedId),
        TextOr(Field(row, "policyid"), ""),
        TextOr(Field(row, "policyholderid"), "0"),
        if Truthy(Field(row, "claimamount")) then CellAmount(row["claimamount"]) else 0,
        claimDate,
        TextOr(Field(row, "hospitalname"), ""),
        PENDING))
  }

  /** A text date is copied unchanged and a numeric one becomes its ISO calendar date. */
  lemma MapRowToClaimDate(row: map<string, Cell>, generatedId: string)
    requires MapRowToClaim(row, generatedId).Success?
    ensures var c := MapRowToClaim(row, generatedId).value;
            ("claimdate" !in row ==> c.ClaimDate == "") &&
            ("claimdate" in row && row["claimdate"].Text? ==> c.ClaimDate == row["claimdate"].text) &&
            ("claimdate" in row && row["claimdate"].Number? ==>
               c.ClaimDate == IsoDate(SerialDate(row["claimdate"].number)))
  {
  }

  /** A row that names only some fields gets the source's defaults for the others. */
  lemma EmptyRowDefaults(generatedId: string)
    ensures MapRowToClaim(map[], generatedId) == Success(Claim(None, generatedId, "", "0", 0, "", "", PENDING))
  {
  }

  // ---------------------------------------------------------------------------------------
  // De-duplication

  function ClaimIdOf(c: Claim): string {
    c.ClaimID
  }

  /**
   * removeDuplicates: a Map from ClaimID to the first claim with it, read back in insertion
   * order. `seen` is the Map's key set and `unique` its values in insertion order.
   */
  method RemoveDuplicates(claims: seq<Claim>) returns (unique: seq<Claim>)
    ensures unique == DedupBy(claims, ClaimIdOf)
    ensures DistinctKeys(unique, ClaimIdOf)
    ensures KeysOf(unique, ClaimIdOf) == KeysOf(claims, ClaimIdOf)
    ensures IsSubsequence(unique, claims)
    ensures forall i | 0 <= i < |claims| && FirstOfKey(claims, ClaimIdOf, i) :: claims[i] in unique
  {
    var seen: set<string> := {};
    unique := [];
    for i := 0 to |claims|
      invariant unique == DedupBy(claims[..i], ClaimIdOf)
      invariant seen == KeysOf(claims[..i], ClaimIdOf)
    {
      var c := claims[i];
      assert claims[..i + 1][..i] == claims[..i];
      KeysOfSnoc(claims[..i], c, ClaimIdOf);
      assert claims[..i + 1] == claims[..i] + [c];
      if c.ClaimID !in seen {
        seen := seen + {c.ClaimID};
        unique := unique + [c];
      }
    }
    assert claims[..|claims|] == claims;
    DedupDistinct(claims, ClaimIdOf);
    DedupKeys(claims, ClaimIdOf);
    DedupIsSubsequence(claims, ClaimIdOf);
    forall i | 0 <= i < |claims| && FirstOfKey(claims, ClaimIdOf, i) ensures claims[i] in unique {
      DedupKeepsFirst(claims, ClaimIdOf, i);
    }
  }

  /** De-duplicating an already de-duplicated list changes nothing. */
  lemma RemoveDuplicatesIdempotent(claims: seq<Claim>)
    ensures DedupBy(DedupBy(claims, ClaimIdOf), ClaimIdOf) == DedupBy(claims, ClaimIdOf)
  {
    DedupIdempotent(claims, ClaimIdOf);
  }

  /**
   * The core of parseExcelFile: every row normalised and converted (the first failing row
   * makes the whole parse fail), then de-duplicated. `ids(k)` is the id generated for row k.
   */
  function ConvertRows(rows: seq<Row>, ids: nat -> string): (r: Result<seq<Claim>, DateError>)
    ensures r.Success? ==> |r.value| == |rows|
    ensures r.Success? ==> forall k | 0 <= k < |rows| ::
              MapRowToClaim(NormalizedRow(rows[k]), ids(k)) == Success(r.value[k])
  {
    if rows == [] then Success([])
    else
      match ConvertRows(rows[..|rows| - 1], ids)
      case Failure(e) => Failure(e)
      case Success(init) =>
        match MapRowToClaim(NormalizedRow(rows[|rows| - 1]), ids(|rows| - 1))
        case Failure(e) => Failure(e)
        case Success(c) => Success(init + [c])
  }

  /** The k-th row's date makes its mapping fail. */
  predicate RowFails(rows: seq<Row>, ids: nat -> string, k: nat)
    requires k < |rows|
  {
    MapRowToClaim(NormalizedRow(rows[k]), ids(k)).Failure?
  }

  /** The conversion fails exactly when some row's mapping does. */
  lemma {:induction false} ConvertRowsFailsIff(rows: seq<Row>, ids: nat -> string)
    ensures ConvertRows(rows, ids).Failure? <==> exists k | 0 <= k < |rows| :: RowFails(rows, ids, k)
  {
    if rows != [] {
      var front, last := rows[..|rows| - 1], |rows| - 1;
      ConvertRowsFailsIff(front, ids);
      if ConvertRows(front, ids).Failure? {
        var k :| 0 <= k < |front| && RowFails(front, ids, k);
        assert front[k] == rows[k];
        assert RowFails(rows, ids, k);
      } else if !RowFails(rows, ids, last) {
        forall k | 0 <= k < |rows| ensures !RowFails(rows, ids, k) {
          if k < last {
            assert front[k] == rows[k];
            assert !RowFails(front, ids, k);
          }
        }
      } else {
        assert RowFails(rows, ids, last);
      }
    }
  }

  function ParseRows(rows: seq<Row>, ids: nat -> string): (r: Result<seq<Claim>, DateError>)
  {
    match ConvertRows(rows, ids)
    case Failure(e) => Failure(e)
    case Success(claims) => Success(DedupBy(claims, ClaimIdOf))
  }

  /** Parsed claims are all Pending, carry no store id and have pairwise-distinct ClaimIDs. */
  lemma ParseRowsResult(rows: seq<Row>, ids: nat -> string)
    requires ParseRows(rows, ids).Success?
    ensures var claims := ParseRows(rows, ids).value;
            DistinctKeys(claims, ClaimIdOf) && |claims| <= |rows| &&
            forall i | 0 <= i < |claims| :: claims[i].Status == PENDING && claims[i].id == None
  {
    var all := ConvertRows(rows, ids).value;
    DedupDistinct(all, ClaimIdOf);
    DedupMembers(all, ClaimIdOf);
    DedupIsSubsequence(all, ClaimIdOf);
    SubsequenceLength(DedupBy(all, ClaimIdOf), all);
    forall c | c in all ensures c.Status == PENDING && c.id == None {
      var k :| 0 <= k < |all| && all[k] == c;
    }
  }

  // ---------------------------------------------------------------------------------------
  // Status bookkeeping

  /** The claim status a risk level leads to after pattern analysis. */
  function StatusForRiskLevel(level: string): (status: string)
    ensures status == APPROVED <==> level == LOW || level == MEDIUM
    ensures status == FRAUD_DETECTED <==> level != LOW && level != MEDIUM
  {
    if level == LOW || level == MEDIUM then APPROVED else FRAUD_DETECTED
  }

  /** Composed with the scorer: a claim is approved exactly when its holder scored at most 70. */
  lemma StatusForScore(value: int)
    ensures StatusForRiskLevel(PatternAnalysis.RiskLevelFor(value)) == APPROVED <==> value <= 70
    ensures StatusForRiskLevel(PatternAnalysis.RiskLevelFor(value)) == FRAUD_DETECTED <==> value >= 71
  {
  }

  /** The claims with ClaimID `claimID` get status `status`; nothing else changes. */
  function WithStatus(claims: seq<Claim>, claimID: string, status: string): (r: seq<Claim>)
    ensures |r| == |claims|
  {
    seq(|claims|, i requires 0 <= i < |claims| =>
      if claims[i].ClaimID == claimID then claims[i].(Status := status) else claims[i])
  }

  lemma WithStatusEffect(claims: seq<Claim>, claimID: string, status: string, i: int)
    requires 0 <= i < |claims|
    ensures var c, c' := claims[i], WithStatus(claims, claimID, status)[i];
            c'.(Status := c.Status) == c &&
            (c.ClaimID == claimID ==> c'.Status == status) &&
            (c.ClaimID != claimID ==> c' == c)
  {
  }

  /** Setting a status is idempotent, and without a matching claim nothing changes. */
  lemma WithStatusProperties(claims: seq<Claim>, claimID: string, status: string)
    ensures WithStatus(WithStatus(claims, claimID, status), claimID, status) == WithStatus(claims, claimID, status)
    ensures (forall i | 0 <= i < |claims| :: claims[i].ClaimID != claimID) ==> WithStatus(claims, claimID, status) == claims
  {
  }

  // Dashboard counters.

  function HasStatus(status: string): Claim -> bool {
    (c: Claim) => c.Status == status
  }

  function PendingCount(claims: seq<Claim>): nat {
    |Filter(claims, HasStatus(PENDING))|
  }

  function ApprovedCount(claims: seq<Claim>): nat {
    |Filter(claims, HasStatus(APPROVED))|
  }

  function RejectedCount(claims: seq<Claim>): nat {
    |Filter(claims, HasStatus(REJECTED))|
  }

  /** A claim has one status, so the three counters never exceed the total. */
  lemma CountersBounded(claims: seq<Claim>)
    ensures PendingCount(claims) + ApprovedCount(claims) + RejectedCount(claims) <= |claims|
  {
    FilterDisjointCounts(claims, HasStatus(PENDING), HasStatus(APPROVED), HasStatus(REJECTED));
  }

  /** A store id that is present and not empty: JavaScript's `!claim.id` is false exactly then. */
  predicate HasStoreId(c: Claim) {
    c.id.Some? && c.id.value != ""
  }

  /** What updateClaimStatus reports. */
  datatype UpdateOutcome = ClaimNotFound | MissingStoreId | Patched(storeId: string) | PatchFailed(storeId: string)

  /** The store's current claim list (the `_claims` subject). */
  class ClaimsService {
    var claims: seq<Claim>

    constructor()
      ensures claims == []
    {
      claims := [];
    }

    /**
     * loadClaims: the server's reply replaces the list, and a null reply body gives []; a
     * failed request only logs the error and keeps the list.
     */
    method LoadClaims(response: Response<seq<Claim>>)
      modifies this
      ensures response.Failed? ==> claims == old(claims)
      ensures response.Replied? ==> claims == response.body.GetOr([])
    {
      if response.Replied? {
        claims := response.body.GetOr([]);
      }
    }

    /**
     * updateClaimStatus: the first claim with `claimID` must exist and carry a non-empty store id; the
     * PATCH is then sent to that id, and when it succeeds (`patchSucceeds`, the server's reply)
     * every claim with that ClaimID gets the new status.
     */
    method UpdateClaimStatus(claimID: string, status: string, patchSucceeds: bool) returns (outcome: UpdateOutcome)
      modifies this
      ensures var found := Find(old(claims), (c: Claim) => c.ClaimID == claimID);
              (found.None? ==> outcome == ClaimNotFound) &&
              (found.Some? && !HasStoreId(found.value) ==> outcome == MissingStoreId) &&
              (found.Some? && HasStoreId(found.value) ==>
                 outcome == (if patchSucceeds then Patched(found.value.id.value) else PatchFailed(found.value.id.value)))
      ensures outcome.Patched? ==> claims == WithStatus(old(claims), claimID, status)
      ensures !outcome.Patched? ==> claims == old(claims)
    {
      var claim := Find(claims, (c: Claim) => c.ClaimID == claimID);
      if claim.None? {
        return ClaimNotFound;
      }
      if !HasStoreId(claim.value) {
        return MissingStoreId;
      }
      if !patchSucceeds {
        return PatchFailed(claim.value.id.value);
      }
      claims := WithStatus(claims, claimID, status);
      return Patched(claim.value.id.value);
    }
  }
}
