/** The admin dashboard's claim table: free-text search and status filter over the claims. */
module Dashboard {
  import opened Seqs
  import opened Text
  import opened Model

  /** The query as the filter uses it: `searchQuery.toLowerCase().trim()`. */
  function NormalizedQuery(searchQuery: string): string {
    Trim(Lower(searchQuery))
  }

  /** The claim's ClaimID, PolicyID, PolicyHolderID or HospitalName contains the query, ignoring case. */
  predicate MatchesSearch(claim: Claim, query: string) {
    Contains(Lower(claim.ClaimID), query) || Contains(Lower(claim.PolicyID), query) ||
    Contains(Lower(claim.PolicyHolderID), query) || Contains(Lower(claim.HospitalName), query)
  }

  /** An empty selected status admits every claim; otherwise the status must be exactly it. */
  predicate MatchesStatus(claim: Claim, selectedStatus: string) {
    selectedStatus == "" || claim.Status == selectedStatus
  }

  predicate Shown(claim: Claim, searchQuery: string, selectedStatus: string) {
    MatchesSearch(claim, NormalizedQuery(searchQuery)) && MatchesStatus(claim, selectedStatus)
  }

  function ShownBy(searchQuery: string, selectedStatus: string): Claim -> bool {
    (c: Claim) => Shown(c, searchQuery, selectedStatus)
  }

  /** The claims the table shows for a query and a status. */
  function FilterClaims(all: seq<Claim>, searchQuery: string, selectedStatus: string): (r: seq<Claim>)
    ensures IsSubsequence(r, all)
    ensures forall c :: c in r <==> c in all && Shown(c, searchQuery, selectedStatus)
    ensures forall c :: multiset(r)[c] == if Shown(c, searchQuery, selectedStatus) then multiset(all)[c] else 0
  {
    var p := ShownBy(searchQuery, selectedStatus);
    FilterIsSubsequence(all, p);
    forall c ensures c in Filter(all, p) <==> c in all && p(c) {
      FilterMember(all, p, c);
    }
    forall c ensures multiset(Filter(all, p))[c] == if p(c) then multiset(all)[c] else 0 {
      FilterMultiset(all, p, c);
    }
    Filter(all, p)
  }

  /** A blank query, once lower-cased and trimmed, is the empty string. */
  lemma BlankQueryIsEmpty(searchQuery: string)
    requires IsBlank(searchQuery)
    ensures NormalizedQuery(searchQuery) == ""
  {
    var l := Lower(searchQuery);
    assert IsBlank(l) by {
      forall i | 0 <= i < |l| ensures IsJsWhitespace(l[i]) {
        assert IsJsWhitespace(searchQuery[i]);
        assert !('A' <= searchQuery[i] <= 'Z');
      }
    }
    TrimEmptyIffBlank(l);
  }

  /** With a blank query and no status selected, every claim is shown, in order. */
  lemma NoFilterShowsAll(all: seq<Claim>, searchQuery: string)
    requires IsBlank(searchQuery)
    ensures FilterClaims(all, searchQuery, "") == all
  {
    BlankQueryIsEmpty(searchQuery);
    forall i | 0 <= i < |all| ensures Shown(all[i], searchQuery, "") {
      ContainsEmpty(Lower(all[i].ClaimID));
    }
    FilterKeepsAll(all, ShownBy(searchQuery, ""));
  }

  /** With a status selected, every claim shown has exactly that status. */
  lemma SelectedStatusIsExact(all: seq<Claim>, searchQuery: string, selectedStatus: string)
    requires selectedStatus != ""
    ensures forall c | c in FilterClaims(all, searchQuery, selectedStatus) :: c.Status == selectedStatus
  {
  }

  /** The dashboard's claim-table state. */
  class DashboardComponent {
    var allClaims: seq<Claim>
    var filteredClaims: seq<Claim>
    var searchQuery: string
    var selectedStatus: string

    constructor()
      ensures allClaims == [] && filteredClaims == [] && searchQuery == "" && selectedStatus == ""
    {
      allClaims := [];
      filteredClaims := [];
      searchQuery := "";
      selectedStatus := "";
    }

    /** The claim list arriving (ngOnInit): the table shows all of it. */
    method OnClaims(claims: seq<Claim>)
      modifies this
      ensures allClaims == claims && filteredClaims == claims
      ensures searchQuery == old(searchQuery) && selectedStatus == old(selectedStatus)
    {
      allClaims := claims;
      filteredClaims := claims;
    }

    /** applyFilters: the table shows the claims matching the query and the status. */
    method ApplyFilters()
      modifies this
      ensures filteredClaims == FilterClaims(allClaims, searchQuery, selectedStatus)
      ensures allClaims == old(allClaims) && searchQuery == old(searchQuery) && selectedStatus == old(selectedStatus)
    {
      var rawQuery, status := searchQuery, selectedStatus;
      var query := NormalizedQuery(rawQuery);
      var matches := (c: Claim) => MatchesSearch(c, query) && MatchesStatus(c, status);
      FilterSameOn(allClaims, matches, ShownBy(rawQuery, status));
      filteredClaims := Filter(allClaims, matches);
    }

    /** resetFilters: query and status cleared, every claim shown again. */
    method ResetFilters()
      modifies this
      ensures searchQuery == "" && selectedStatus == "" && filteredClaims == allClaims
      ensures allClaims == old(allClaims)
    {
      searchQuery := "";
      selectedStatus := "";
      filteredClaims := allClaims;
    }
  }

  /** After a reset, applying the (cleared) filters shows every claim, as the reset itself does. */
  lemma ResetThenApplyShowsAll(all: seq<Claim>)
    ensures FilterClaims(all, "", "") == all
  {
    NoFilterShowsAll(all, "");
  }
}
