/**
 * InvestigatorService: the cases assigned to the logged-in investigator, derived from the
 * case list whenever it changes. The active user id comes from the stored session (None when
 * there is no session or it cannot be read).
 */
module InvestigatorAssignments {
  import opened Wrappers
  import opened Seqs
  import opened Model

  /** `!userId` in JavaScript: null and 0 are falsy. */
  predicate IsFalsyId(userId: Option<int>) {
    userId.None? || userId.value == 0
  }

  predicate AssignedTo(c: Case, userId: int) {
    c.investigatorID == Some(userId)
  }

  /**
   * getAssignedCases: nothing without a (truthy) user id; otherwise exactly the cases whose
   * investigator is that user, in list order. A null list counts as empty.
   */
  function GetAssignedCases(cases: Option<seq<Case>>, userId: Option<int>): (r: seq<Case>)
    ensures IsFalsyId(userId) ==> r == []
    ensures !IsFalsyId(userId) ==> forall c :: c in r <==> c in cases.GetOr([]) && AssignedTo(c, userId.value)
    ensures !IsFalsyId(userId) ==> forall c ::
              multiset(r)[c] == if AssignedTo(c, userId.value) then multiset(cases.GetOr([]))[c] else 0
    ensures IsSubsequence(r, cases.GetOr([]))
  {
    var all := cases.GetOr([]);
    if IsFalsyId(userId) then
      assert IsSubsequence([], all);
      []
    else
      var p := (c: Case) => AssignedTo(c, userId.value);
      var r := Filter(all, p);
      FilterIsSubsequence(all, p);
      forall c ensures c in r <==> c in all && AssignedTo(c, userId.value) {
        FilterMember(all, p, c);
      }
      forall c ensures multiset(r)[c] == if AssignedTo(c, userId.value) then multiset(all)[c] else 0 {
        FilterMultiset(all, p, c);
      }
      r
  }

  /** Unassigned cases (investigatorID null) are never among anyone's assigned cases. */
  lemma UnassignedNeverListed(cases: Option<seq<Case>>, userId: Option<int>, c: Case)
    requires c.investigatorID.None?
    ensures c !in GetAssignedCases(cases, userId)
  {
  }

  /** Two different investigators never see the same case. */
  lemma AssignmentsDisjoint(cases: Option<seq<Case>>, u: int, v: int)
    requires u != v
    ensures forall c | c in GetAssignedCases(cases, Some(u)) :: c !in GetAssignedCases(cases, Some(v))
  {
  }
}
