/**
 * The investigator's page: the cases assigned to the logged-in investigator, counted and
 * filtered by status, and the resolution form for one case.
 */
module InvestigatorView {
  import opened Wrappers
  import opened Seqs
  import opened Model
  import Cases

  /** The filter value that shows every case. */
  const ALL_FILTER: string := "all"

  function HasCaseStatus(status: string): Case -> bool {
    (c: Case) => c.status == status
  }

  /** The cases with exactly this status, in list order. */
  function CasesWithStatus(cases: seq<Case>, status: string): (r: seq<Case>)
    ensures IsSubsequence(r, cases)
    ensures forall c :: c in r <==> c in cases && c.status == status
  {
    FilterIsSubsequence(cases, HasCaseStatus(status));
    forall c ensures c in Filter(cases, HasCaseStatus(status)) <==> c in cases && c.status == status {
      FilterMember(cases, HasCaseStatus(status), c);
    }
    Filter(cases, HasCaseStatus(status))
  }

  /** Each case with the status appears as often as in the list, every other case not at all. */
  lemma CasesWithStatusMultiset(cases: seq<Case>, status: string)
    ensures forall c :: multiset(CasesWithStatus(cases, status))[c] == if c.status == status then multiset(cases)[c] else 0
  {
    forall c ensures multiset(Filter(cases, HasCaseStatus(status)))[c] == if c.status == status then multiset(cases)[c] else 0 {
      FilterMultiset(cases, HasCaseStatus(status), c);
    }
  }

  /** The three status counts together never exceed the number of cases. */
  lemma StatusCountsBounded(cases: seq<Case>)
    ensures |CasesWithStatus(cases, CASE_OPEN)| + |CasesWithStatus(cases, CASE_PENDING)| +
            |CasesWithStatus(cases, CASE_COMPLETED)| <= |cases|
  {
    FilterDisjointCounts(cases, HasCaseStatus(CASE_OPEN), HasCaseStatus(CASE_PENDING), HasCaseStatus(CASE_COMPLETED));
  }

  /** The page's state. */
  class InvestigatorComponent {
    var allInvestigatorCases: seq<Case>
    var filteredCases: seq<Case>
    var selectedFilter: string
    var totalCases: nat
    var openCases: nat
    var pendingCases: nat
    var completedCases: nat
    var formCaseId: Option<string>
    var formResolutionNotes: string
    var formIsFraud: bool

    constructor()
      ensures allInvestigatorCases == [] && filteredCases == [] && selectedFilter == ALL_FILTER
      ensures totalCases == 0 && openCases == 0 && pendingCases == 0 && completedCases == 0
      ensures formCaseId == None && formResolutionNotes == "" && !formIsFraud
    {
      allInvestigatorCases := [];
      filteredCases := [];
      selectedFilter := ALL_FILTER;
      totalCases, openCases, pendingCases, completedCases := 0, 0, 0, 0;
      formCaseId, formResolutionNotes, formIsFraud := None, "", false;
    }

    /** The counters agree with the list they were computed from. */
    ghost predicate CountsAgree()
      reads this
    {
      totalCases == |allInvestigatorCases| &&
      openCases == |CasesWithStatus(allInvestigatorCases, CASE_OPEN)| &&
      pendingCases == |CasesWithStatus(allInvestigatorCases, CASE_PENDING)| &&
      completedCases == |CasesWithStatus(allInvestigatorCases, CASE_COMPLETED)|
    }

    /** updateCounts: the total and the Open, Pending and Completed counts of the assigned cases. */
    method UpdateCounts()
      modifies this
      ensures CountsAgree()
      ensures openCases + pendingCases + completedCases <= totalCases
      ensures allInvestigatorCases == old(allInvestigatorCases) && filteredCases == old(filteredCases)
      ensures selectedFilter == old(selectedFilter)
      ensures formCaseId == old(formCaseId) && formResolutionNotes == old(formResolutionNotes) && formIsFraud == old(formIsFraud)
    {
      var cases := allInvestigatorCases;
      StatusCountsBounded(cases);
      totalCases, openCases, pendingCases, completedCases :=
        |cases|, |CasesWithStatus(cases, CASE_OPEN)|, |CasesWithStatus(cases, CASE_PENDING)|,
        |CasesWithStatus(cases, CASE_COMPLETED)|;
    }

    /** applyFilter: 'all' shows every case, any other value exactly the cases with that status. */
    method ApplyFilter(status: string)
      modifies this
      ensures selectedFilter == status
      ensures filteredCases == (if status == ALL_FILTER then allInvestigatorCases else CasesWithStatus(allInvestigatorCases, status))
      ensures allInvestigatorCases == old(allInvestigatorCases)
      ensures totalCases == old(totalCases) && openCases == old(openCases) && pendingCases == old(pendingCases)
      ensures completedCases == old(completedCases)
      ensures formCaseId == old(formCaseId) && formResolutionNotes == old(formResolutionNotes) && formIsFraud == old(formIsFraud)
    {
      selectedFilter := status;
      filteredCases := if status == ALL_FILTER then allInvestigatorCases else Filter(allInvestigatorCases, HasCaseStatus(status));
    }

    /** The assigned cases arriving (the subscription in ngOnInit): recount, then refilter. */
    method OnAssignedCases(cases: seq<Case>)
      modifies this
      ensures allInvestigatorCases == cases && CountsAgree()
      ensures filteredCases == (if old(selectedFilter) == ALL_FILTER then cases else CasesWithStatus(cases, old(selectedFilter)))
      ensures selectedFilter == old(selectedFilter)
    {
      allInvestigatorCases := cases;
      UpdateCounts();
      ApplyFilter(selectedFilter);
    }

    /**
     * editCase: the first assigned case with this store id fills the form; an unknown id
     * leaves the form as it was.
     */
    method EditCase(caseId: string)
      modifies this
      ensures var found := Find(allInvestigatorCases, (c: Case) => c.id == Some(caseId));
              (found.None? ==> formCaseId == old(formCaseId) && formResolutionNotes == old(formResolutionNotes) &&
                               formIsFraud == old(formIsFraud)) &&
              (found.Some? ==> formCaseId == Some(caseId) && formResolutionNotes == found.value.resolutionNotes &&
                               formIsFraud == found.value.isFraud)
      ensures allInvestigatorCases == old(allInvestigatorCases) && filteredCases == old(filteredCases)
      ensures selectedFilter == old(selectedFilter) && totalCases == old(totalCases)
      ensures openCases == old(openCases) && pendingCases == old(pendingCases) && completedCases == old(completedCases)
    {
      var caseItem := Find(allInvestigatorCases, (c: Case) => c.id == Some(caseId));
      if caseItem.Some? {
        formCaseId := caseItem.value.id;
        formResolutionNotes := caseItem.value.resolutionNotes;
        formIsFraud := caseItem.value.isFraud;
      }
    }

    /**
     * acceptCase: asks the service to patch the case's status to Pending (its reply is
     * `reply`) and returns the body sent; the component's own state is untouched.
     */
    method AcceptCase(service: Cases.CasesService, caseId: string, reply: Option<Case>) returns (patch: Cases.StatusPatch)
      modifies service
      ensures patch == Cases.StatusPatch(CASE_PENDING)
      ensures service.cases == (if reply.Some? then Cases.ReplaceById(old(service.cases), caseId, reply.value)
                                else old(service.cases))
      ensures service.nextCaseId == old(service.nextCaseId)
    {
      patch := service.UpdateCase(caseId, Cases.StatusPatch(CASE_PENDING), reply);
    }

    /**
     * submitCase: without a case id (null or "") nothing happens; otherwise the service sends
     * the form's fraud flag and notes (its reply is `reply`) and the form is cleared. Returns
     * the case patch and, once the reply arrived, the claim's store id and new status.
     */
    method SubmitCase(service: Cases.CasesService, reply: Option<Case>)
      returns (submitted: bool, patch: Option<Cases.InvestigationPatch>, claimPatch: Option<(string, string)>)
      modifies this, service
      ensures submitted <==> old(formCaseId).Some? && old(formCaseId).value != ""
      ensures !submitted ==> patch == None && claimPatch == None
      ensures submitted ==> patch == Some(Cases.InvestigationPatchFor(old(formIsFraud), Some(old(formResolutionNotes))))
      ensures submitted && reply.Some? ==>
                claimPatch == Some((reply.value.claimID,
                                    Cases.ClaimStatusAfterInvestigation(Some(old(formResolutionNotes)), old(formIsFraud))))
      ensures submitted && reply.None? ==> claimPatch == None
      ensures !submitted ==> formCaseId == old(formCaseId) && formResolutionNotes == old(formResolutionNotes) &&
                             formIsFraud == old(formIsFraud) && service.cases == old(service.cases)
      ensures submitted ==> formCaseId == None && formResolutionNotes == "" && !formIsFraud &&
                            service.cases == (if reply.Some? then Cases.ReplaceById(old(service.cases), old(formCaseId).value, reply.value)
                                              else old(service.cases))
      ensures service.nextCaseId == old(service.nextCaseId)
      ensures allInvestigatorCases == old(allInvestigatorCases) && filteredCases == old(filteredCases)
      ensures selectedFilter == old(selectedFilter)
    {
      if formCaseId.None? || formCaseId.value == "" {
        return false, None, None;
      }
      var sent, claim := service.UpdateCaseAfterInvestigation(formCaseId.value, formIsFraud, Some(formResolutionNotes), reply);
      formCaseId, formResolutionNotes, formIsFraud := None, "", false;
      return true, Some(sent), claim;
    }
  }
}
