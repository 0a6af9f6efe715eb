/**
 * CasesService: the investigation cases held by the application, the allocation of case
 * IDs, the opening of cases for HIGH-risk scores, and the patches sent when a case is
 * assigned or investigated. Every HTTP reply the service waits for is a parameter.
 */
module Cases {
  import opened Wrappers
  import opened Seqs
  import opened Text
  import opened Model

  /** The case ID counter's value before any case has been loaded. */
  const FIRST_CASE_ID: int := 1000

  // ---------------------------------------------------------------------------------------
  // Case IDs

  /** The largest caseID among `cases`, and 1000 when none is larger (the reduce in loadCases). */
  function MaxCaseId(cases: seq<Case>): (m: int)
    ensures m >= FIRST_CASE_ID
    ensures forall i | 0 <= i < |cases| :: cases[i].caseID <= m
    ensures m == FIRST_CASE_ID || exists i | 0 <= i < |cases| :: cases[i].caseID == m
  {
    if cases == [] then FIRST_CASE_ID
    else
      var m := MaxCaseId(cases[..|cases| - 1]);
      var c := cases[|cases| - 1];
      if c.caseID > m then c.caseID else m
  }

  // ---------------------------------------------------------------------------------------
  // Opening cases for HIGH-risk scores

  /** The claim IDs that already have a case (the Set built once, before the loop). */
  function ClaimIdsOf(cases: seq<Case>): set<string> {
    KeysOf(cases, (c: Case) => c.claimID)
  }

  /** A score opens a case when it is HIGH and its claim had no case before the batch. */
  predicate Opens(rs: RiskScore, existing: set<string>) {
    rs.RiskLevel == HIGH && rs.ClaimID !in existing
  }

  /** The scores of the batch that open a case, in batch order. */
  function Opening(scores: seq<RiskScore>, existing: set<string>): seq<RiskScore> {
    Filter(scores, (rs: RiskScore) => Opens(rs, existing))
  }

  /** The case posted for a claim: unassigned, Open, without notes, flagged as fraud. */
  function OpenCase(caseID: int, claimID: string): Case {
    Case(None, caseID, claimID, None, CASE_OPEN, "", true)
  }

  /** The cases posted for `opening`, numbered consecutively from `start`. */
  function CasesFor(opening: seq<RiskScore>, start: int): (r: seq<Case>)
    ensures |r| == |opening|
  {
    seq(|opening|, k requires 0 <= k < |opening| => OpenCase(start + k, opening[k].ClaimID))
  }

  lemma CasesForSnoc(opening: seq<RiskScore>, rs: RiskScore, start: int)
    ensures CasesFor(opening + [rs], start) == CasesFor(opening, start) + [OpenCase(start + |opening|, rs.ClaimID)]
  {
  }

  /** One more score of the batch: it adds its case, numbered after those before it, or nothing. */
  lemma OpeningStep(scores: seq<RiskScore>, i: int, existing: set<string>, start: int)
    requires 0 <= i < |scores|
    ensures var before := CasesFor(Opening(scores[..i], existing), start);
            CasesFor(Opening(scores[..i + 1], existing), start) ==
              if Opens(scores[i], existing) then before + [OpenCase(start + |before|, scores[i].ClaimID)] else before
  {
    TakeSnoc(scores, i);
    FilterSnoc(scores[..i], scores[i], (rs: RiskScore) => Opens(rs, existing));
    CasesForSnoc(Opening(scores[..i], existing), scores[i], start);
  }

  /**
   * A case is opened for claim `x` exactly when some score of the batch for `x` is HIGH and
   * `x` had no case before the batch.
   */
  lemma {:induction false} OpenedForClaim(scores: seq<RiskScore>, existing: set<string>, start: int, x: string)
    ensures (exists c | c in CasesFor(Opening(scores, existing), start) :: c.claimID == x) <==>
            x !in existing && exists rs | rs in scores :: rs.RiskLevel == HIGH && rs.ClaimID == x
  {
    var p := (rs: RiskScore) => Opens(rs, existing);
    var opening := Opening(scores, existing);
    var r := CasesFor(opening, start);
    if c :| c in r && c.claimID == x {
      var k :| 0 <= k < |r| && r[k] == c;
      FilterMember(scores, p, opening[k]);
      assert opening[k] in scores && opening[k].ClaimID == x;
    }
    if rs :| rs in scores && rs.RiskLevel == HIGH && rs.ClaimID == x && x !in existing {
      FilterMember(scores, p, rs);
      var k :| 0 <= k < |opening| && opening[k] == rs;
      assert r[k] in r && r[k].claimID == x;
    }
  }

  /** No case is opened for a claim that had one before the batch. */
  lemma NoCaseForExistingClaim(scores: seq<RiskScore>, existing: set<string>, start: int)
    ensures forall c | c in CasesFor(Opening(scores, existing), start) :: c.claimID !in existing
  {
    forall c | c in CasesFor(Opening(scores, existing), start) ensures c.claimID !in existing {
      OpenedForClaim(scores, existing, start, c.claimID);
    }
  }

  /**
   * The claim IDs are collected once, before the loop: two HIGH scores for the same new claim
   * in one batch both open a case, with consecutive IDs.
   */
  lemma BatchDuplicatesBothOpen(a: RiskScore, b: RiskScore, existing: set<string>, start: int)
    requires a.RiskLevel == HIGH && b.RiskLevel == HIGH && a.ClaimID == b.ClaimID && a.ClaimID !in existing
    ensures CasesFor(Opening([a, b], existing), start) == [OpenCase(start, a.ClaimID), OpenCase(start + 1, a.ClaimID)]
  {
    var p := (rs: RiskScore) => Opens(rs, existing);
    FilterSnoc([a], b, p);
    FilterSnoc([], a, p);
    assert [a, b] == [a] + [b];
    assert [a] == [] + [a];
  }

  /**
   * Cases opened right after loading get caseIDs above every loaded caseID (and above 1000),
   * each one different from the others.
   */
  lemma {:induction false} FreshIdsAfterLoad(loaded: seq<Case>, opening: seq<RiskScore>)
    ensures var r := CasesFor(opening, MaxCaseId(loaded) + 1);
            (forall i, k | 0 <= i < |loaded| && 0 <= k < |r| :: loaded[i].caseID < r[k].caseID) &&
            (forall k | 0 <= k < |r| :: r[k].caseID > FIRST_CASE_ID) &&
            (forall k, l | 0 <= k < l < |r| :: r[k].caseID < r[l].caseID)
  {
    var m := MaxCaseId(loaded);
    var r := CasesFor(opening, m + 1);
    forall i, k | 0 <= i < |loaded| && 0 <= k < |r| ensures loaded[i].caseID < r[k].caseID {
      assert loaded[i].caseID <= m;
      assert r[k].caseID == m + 1 + k;
    }
  }

  /** The cases a batch of POST replies stands for: the replies that are defined. */
  function Defined(replies: seq<Option<Case>>): (r: seq<Case>)
    ensures |r| <= |replies|
    ensures forall c :: c in r <==> Some(c) in replies
  {
    if replies == [] then []
    else
      var init := Defined(replies[..|replies| - 1]);
      var last := replies[|replies| - 1];
      assert replies == replies[..|replies| - 1] + [last];
      match last
      case None => init
      case Some(c) => init + [c]
  }

  // ---------------------------------------------------------------------------------------
  // Investigation

  /** The value the investigation patch gives `status`: 'Completed', or the boolean false. */
  datatype PatchStatus = StatusText(text: string) | StatusFalse

  /** The body of the PATCH sent after an investigation; absent notes are not sent. */
  datatype InvestigationPatch = InvestigationPatch(isFraud: bool, resolutionNotes: Option<string>, status: PatchStatus)

  /** The investigation patch: `status` is `isFraud && 'Completed'`. */
  function InvestigationPatchFor(isFraud: bool, resolutionNotes: Option<string>): (p: InvestigationPatch)
    ensures p.isFraud == isFraud && p.resolutionNotes == resolutionNotes
    ensures p.status == StatusText(CASE_COMPLETED) <==> isFraud
    ensures p.status == StatusFalse <==> !isFraud
  {
    InvestigationPatch(isFraud, resolutionNotes, if isFraud then StatusText(CASE_COMPLETED) else StatusFalse)
  }

  /**
   * The claim status written after an investigation: Pending while the notes are absent,
   * empty or blank (`!notes || !notes.trim()`), otherwise Rejected for fraud and Approved
   * when no fraud was found.
   */
  function ClaimStatusAfterInvestigation(resolutionNotes: Option<string>, isFraud: bool): (s: string)
    ensures s == PENDING <==> resolutionNotes.None? || IsBlank(resolutionNotes.value)
    ensures s == REJECTED <==> resolutionNotes.Some? && !IsBlank(resolutionNotes.value) && isFraud
    ensures s == APPROVED <==> resolutionNotes.Some? && !IsBlank(resolutionNotes.value) && !isFraud
  {
    match resolutionNotes
    case None => PENDING
    case Some(notes) =>
      TrimEmptyIffBlank(notes);
      if notes == [] || Trim(notes) == [] then PENDING
      else if isFraud then REJECTED
      else APPROVED
  }

  // ---------------------------------------------------------------------------------------
  // Replacing a case by store id

  /** `cases.map(c => c.id === caseId ? updated : c)`. */
  function ReplaceById(cases: seq<Case>, caseId: string, updated: Case): (r: seq<Case>)
    ensures |r| == |cases|
  {
    MapSeq(cases, (c: Case) => if c.id == Some(caseId) then updated else c)
  }

  /** Exactly the cases with the given store id are replaced; the others keep their place. */
  lemma ReplaceByIdEffect(cases: seq<Case>, caseId: string, updated: Case)
    ensures forall i | 0 <= i < |cases| ::
              (cases[i].id == Some(caseId) ==> ReplaceById(cases, caseId, updated)[i] == updated) &&
              (cases[i].id != Some(caseId) ==> ReplaceById(cases, caseId, updated)[i] == cases[i])
  {
  }

  /** Without a case carrying that id the list is unchanged. */
  lemma ReplaceByIdNoMatch(cases: seq<Case>, caseId: string, updated: Case)
    requires forall i | 0 <= i < |cases| :: cases[i].id != Some(caseId)
    ensures ReplaceById(cases, caseId, updated) == cases
  {
  }

  /** When the reply keeps its id, replacing it again changes nothing. */
  lemma ReplaceByIdIdempotent(cases: seq<Case>, caseId: string, updated: Case)
    requires updated.id == Some(caseId)
    ensures ReplaceById(ReplaceById(cases, caseId, updated), caseId, updated) == ReplaceById(cases, caseId, updated)
  {
  }

  /** The body of the PATCH sent when an investigator is assigned. */
  datatype AssignPatch = AssignPatch(investigatorID: Option<int>, status: string)

  /** The body of a generic case PATCH (a `Partial<Case>`); every caller sends only a status. */
  datatype StatusPatch = StatusPatch(status: string)

  // ---------------------------------------------------------------------------------------
  // The service

  class CasesService {
    var cases: seq<Case>
    var nextCaseId: int

    constructor()
      ensures cases == [] && nextCaseId == FIRST_CASE_ID
    {
      cases := [];
      nextCaseId := FIRST_CASE_ID;
    }

    /**
     * loadCases: the list is replaced by the reply (null gives []) and the counter moves past
     * it; a failed request only logs the error and keeps both.
     */
    method LoadCases(response: Response<seq<Case>>)
      modifies this
      ensures response.Failed? ==> cases == old(cases) && nextCaseId == old(nextCaseId)
      ensures response.Replied? ==> cases == response.body.GetOr([]) && nextCaseId == MaxCaseId(cases) + 1
    {
      if response.Replied? {
        cases := response.body.GetOr([]);
        nextCaseId := MaxCaseId(cases) + 1;
      }
    }

    /**
     * createCasesForHighRisk. `riskScores` is the argument (None for null), `existingCases`
     * how the GET of all cases ended, `created` the outcome of the POSTs (None when one of
     * them failed). Returns the case bodies posted, in order; a failed GET posts nothing.
     */
    method CreateCasesForHighRisk(riskScores: Option<seq<RiskScore>>, existingCases: Response<seq<Case>>,
                                  created: Option<seq<Option<Case>>>) returns (posts: seq<Case>)
      modifies this
      ensures riskScores.GetOr([]) == [] || existingCases.Failed? ==>
                posts == [] && cases == old(cases) && nextCaseId == old(nextCaseId)
      ensures riskScores.GetOr([]) != [] && existingCases.Replied? ==>
                posts == CasesFor(Opening(riskScores.value, ClaimIdsOf(existingCases.body.GetOr([]))), old(nextCaseId))
      ensures nextCaseId == old(nextCaseId) + |posts|
      ensures cases == (if existingCases.Failed? || posts == [] || created.None? then old(cases)
                        else existingCases.body.GetOr([]) + Defined(created.value))
    {
      posts := [];
      if riskScores.None? || |riskScores.value| == 0 || existingCases.Failed? {
        return;
      }
      var scores := riskScores.value;
      var existing := existingCases.body.GetOr([]);
      var existingClaimIDs := ClaimIdsOf(existing);
      ghost var start := nextCaseId;
      for i := 0 to |scores|
        invariant posts == CasesFor(Opening(scores[..i], existingClaimIDs), start)
        invariant nextCaseId == start + |posts|
        invariant cases == old(cases)
      {
        var rs := scores[i];
        OpeningStep(scores, i, existingClaimIDs, start);
        if rs.RiskLevel == HIGH && rs.ClaimID !in existingClaimIDs {
          var newCase := OpenCase(nextCaseId, rs.ClaimID);
          nextCaseId := nextCaseId + 1;
          posts := posts + [newCase];
        }
      }
      assert scores[..|scores|] == scores;
      if |posts| == 0 {
        return;
      }
      if created.Some? {
        cases := existing + Defined(created.value);
      }
    }

    /**
     * assignInvestigator: the patch sets the investigator and moves the case to Pending; the
     * reply (None when the request failed) replaces the case with that id.
     */
    method AssignInvestigator(caseId: string, investigatorID: Option<int>, reply: Option<Case>) returns (patch: AssignPatch)
      modifies this
      ensures patch == AssignPatch(investigatorID, CASE_PENDING)
      ensures cases == (if reply.Some? then ReplaceById(old(cases), caseId, reply.value) else old(cases))
      ensures nextCaseId == old(nextCaseId)
    {
      patch := AssignPatch(investigatorID, CASE_PENDING);
      if reply.Some? {
        cases := ReplaceById(cases, caseId, reply.value);
      }
    }

    /**
     * updateCaseAfterInvestigation: sends the investigation patch; once the reply arrives the
     * case is replaced and the claim it names is patched with the derived claim status.
     * Returns the case patch and, when the reply arrived, the claim's store id and new status.
     */
    method UpdateCaseAfterInvestigation(caseId: string, isFraud: bool, resolutionNotes: Option<string>, reply: Option<Case>)
      returns (patch: InvestigationPatch, claimPatch: Option<(string, string)>)
      modifies this
      ensures patch == InvestigationPatchFor(isFraud, resolutionNotes)
      ensures reply.None? ==> cases == old(cases) && claimPatch == None
      ensures reply.Some? ==> cases == ReplaceById(old(cases), caseId, reply.value) &&
                              claimPatch == Some((reply.value.claimID, ClaimStatusAfterInvestigation(resolutionNotes, isFraud)))
      ensures nextCaseId == old(nextCaseId)
    {
      patch := InvestigationPatchFor(isFraud, resolutionNotes);
      claimPatch := None;
      if reply.Some? {
        var updatedCase := reply.value;
        cases := ReplaceById(cases, caseId, updatedCase);
        claimPatch := Some((updatedCase.claimID, ClaimStatusAfterInvestigation(resolutionNotes, isFraud)));
      }
    }

    /**
     * updateCase: sends `patch` to the case with that id and returns the body sent; the reply
     * replaces the case with that id.
     */
    method UpdateCase(caseId: string, patch: StatusPatch, reply: Option<Case>) returns (sent: StatusPatch)
      modifies this
      ensures sent == patch
      ensures cases == (if reply.Some? then ReplaceById(old(cases), caseId, reply.value) else old(cases))
      ensures nextCaseId == old(nextCaseId)
    {
      sent := patch;
      if reply.Some? {
        cases := ReplaceById(cases, caseId, reply.value);
      }
    }
  }
}
