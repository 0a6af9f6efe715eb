/** The admin's case table: editing one case at a time and naming its investigator. */
module CasesView {
  import opened Wrappers
  import opened Seqs
  import opened Text
  import opened Model
  import Cases
  import Users

  const UNASSIGNED: string := "Unassigned"

  /** The name shown for an investigator id among the known investigators. */
  function InvestigatorName(investigators: seq<User>, id: Option<int>): (name: string)
    ensures id.None? ==> name == UNASSIGNED
    ensures id.Some? && (exists i | 0 <= i < |investigators| :: investigators[i].id == id.value) ==>
              exists i | 0 <= i < |investigators| ::
                investigators[i].id == id.value && name == investigators[i].name &&
                forall j | 0 <= j < i :: investigators[j].id != id.value
    ensures id.Some? && (forall i | 0 <= i < |investigators| :: investigators[i].id != id.value) ==>
              name == "ID " + IntToString(id.value)
  {
    match id
    case None => UNASSIGNED
    case Some(n) =>
      match Find(investigators, (u: User) => u.id == n)
      case Some(inv) => inv.name
      case None => "ID " + IntToString(n)
  }

  /** The page's edit state. */
  class CasesComponent {
    var availableInvestigators: seq<User>
    var editingCaseId: Option<string>
    var resolutionNotesInput: string
    var statusInput: string
    var investigatorInput: Option<int>
    var isFraudInput: bool

    constructor()
      ensures availableInvestigators == [] && Idle()
    {
      availableInvestigators := [];
      editingCaseId := None;
      resolutionNotesInput := "";
      statusInput := CASE_OPEN;
      investigatorInput := None;
      isFraudInput := false;
    }

    /** No case is being edited and the inputs hold their defaults. */
    predicate Idle()
      reads this
    {
      editingCaseId == None && resolutionNotesInput == "" && statusInput == CASE_OPEN &&
      investigatorInput == None && !isFraudInput
    }

    /** ngOnInit: the investigators offered are those of the user registry. */
    method OnInit(users: Users.UsersService)
      modifies this
      ensures availableInvestigators == users.GetInvestigators()
      ensures editingCaseId == old(editingCaseId) && resolutionNotesInput == old(resolutionNotesInput)
      ensures statusInput == old(statusInput) && investigatorInput == old(investigatorInput) && isFraudInput == old(isFraudInput)
    {
      availableInvestigators := users.GetInvestigators();
    }

    /** startEdit: the inputs take the case's fields. */
    method StartEdit(caseItem: Case)
      modifies this
      ensures editingCaseId == caseItem.id && resolutionNotesInput == caseItem.resolutionNotes
      ensures statusInput == caseItem.status && investigatorInput == caseItem.investigatorID
      ensures isFraudInput == caseItem.isFraud
      ensures availableInvestigators == old(availableInvestigators)
    {
      editingCaseId := caseItem.id;
      resolutionNotesInput := caseItem.resolutionNotes;
      statusInput := caseItem.status;
      investigatorInput := caseItem.investigatorID;
      isFraudInput := caseItem.isFraud;
    }

    /** resetInputs: notes "", status Open, no investigator, not fraud; the edited id stays. */
    method ResetInputs()
      modifies this
      ensures resolutionNotesInput == "" && statusInput == CASE_OPEN && investigatorInput == None && !isFraudInput
      ensures editingCaseId == old(editingCaseId) && availableInvestigators == old(availableInvestigators)
    {
      resolutionNotesInput := "";
      statusInput := CASE_OPEN;
      investigatorInput := None;
      isFraudInput := false;
    }

    /** cancelEdit: nothing is being edited any more. */
    method CancelEdit()
      modifies this
      ensures Idle()
      ensures availableInvestigators == old(availableInvestigators)
    {
      editingCaseId := None;
      ResetInputs();
    }

    /**
     * saveEdit: without an edited case id (null or "") nothing happens. Otherwise the
     * investigator is assigned, the chosen status is patched (the service's replies are
     * `assignReply` and `updateReply`, taken in that order) and the edit is closed. Returns
     * the two request bodies sent.
     */
    method SaveEdit(service: Cases.CasesService, assignReply: Option<Case>, updateReply: Option<Case>)
      returns (saved: bool, assignPatch: Option<Cases.AssignPatch>, statusPatch: Option<Cases.StatusPatch>)
      modifies this, service
      ensures saved <==> old(editingCaseId).Some? && old(editingCaseId).value != ""
      ensures !saved ==> assignPatch == None && statusPatch == None
      ensures saved ==> assignPatch == Some(Cases.AssignPatch(old(investigatorInput), CASE_PENDING)) &&
                        statusPatch == Some(Cases.StatusPatch(old(statusInput)))
      ensures !saved ==> editingCaseId == old(editingCaseId) && resolutionNotesInput == old(resolutionNotesInput) &&
                         statusInput == old(statusInput) && investigatorInput == old(investigatorInput) &&
                         isFraudInput == old(isFraudInput) && service.cases == old(service.cases)
      ensures saved ==> Idle() &&
                        var afterAssign := if assignReply.Some? then Cases.ReplaceById(old(service.cases), old(editingCaseId).value, assignReply.value)
                                           else old(service.cases);
                        service.cases == (if updateReply.Some? then Cases.ReplaceById(afterAssign, old(editingCaseId).value, updateReply.value)
                                          else afterAssign)
      ensures service.nextCaseId == old(service.nextCaseId)
      ensures availableInvestigators == old(availableInvestigators)
    {
      if editingCaseId.None? || editingCaseId.value == "" {
        return false, None, None;
      }
      var caseId := editingCaseId.value;
      var assignSent := service.AssignInvestigator(caseId, investigatorInput, assignReply);
      var statusSent := service.UpdateCase(caseId, Cases.StatusPatch(statusInput), updateReply);
      CancelEdit();
      return true, Some(assignSent), Some(statusSent);
    }

    /** getInvestigatorName over the investigators offered. */
    function GetInvestigatorName(id: Option<int>): (name: string)
      reads this
      ensures name == InvestigatorName(availableInvestigators, id)
    {
      InvestigatorName(availableInvestigators, id)
    }
  }
}
