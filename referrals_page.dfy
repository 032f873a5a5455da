/** The list derivations of the referrals page (client/src/pages/referrals.tsx): the status-update
    payload, the search and filter predicate, the hire count and fee total, and the company list. */
module ReferralsPage {
  import opened Wrappers
  import opened Seqs
  import opened Text
  import opened Schema
  import Storage

  /** A row of the page: a referral with the candidate and position it was joined with. The page
      reads both unconditionally, so a row always carries them. */
  datatype Row = Row(referral: Referral, candidate: Candidate, position: Position)

  function Referrals(rows: seq<Row>): (rs: seq<Referral>)
    ensures |rs| == |rows| && forall i :: 0 <= i < |rows| ==> rs[i] == rows[i].referral
  {
    seq(|rows|, i requires 0 <= i < |rows| => rows[i].referral)
  }

  // --- The status update

  /** The payload sent when a referral's status is changed from the table: always the status, and
      the fee only when the new status is "Hired" and the fee is truthy. */
  function StatusUpdatePayload(status: string, feeEarned: Option<int>): (p: ReferralPatch)
    ensures p.status == Some(status)
    ensures p.feeEarned.Some? <==> status == "Hired" && TruthyNumber(feeEarned)
    ensures p.feeEarned.Some? ==> p.feeEarned.value == feeEarned
    ensures p.candidateId.None? && p.positionId.None? && p.referralDate.None? && p.notes.None?
    ensures p.mode.None? && p.feeType.None? && p.feeMonths.None?
  {
    ReferralPatch(None, None, None, Some(status), None,
      if status == "Hired" && TruthyNumber(feeEarned) then Some(feeEarned) else None,
      None, None, None)
  }

  /** Sent to the store, this payload sets off the hire cascade exactly when the new status is
      "Hired", the fee is truthy, the referral was not already Hired and its candidate exists. */
  lemma PayloadCascade(existing: Referral, status: string, feeEarned: Option<int>, candidates: map<int, Candidate>)
    ensures Storage.CascadeFires(existing, StatusUpdatePayload(status, feeEarned), candidates) <==>
      status == "Hired" && TruthyNumber(feeEarned) && existing.status != "Hired"
      && existing.candidateId in candidates
  {
  }

  // --- Filtering

  /** The three instants the date filter compares with: thirty and ninety days before now, and the
      first of January of the current year. */
  datatype DateCutoffs = DateCutoffs(thirtyDaysAgo: int, ninetyDaysAgo: int, startOfYear: int)

  datatype Filters = Filters(search: string, status: string, company: string, date: string)

  const NoFilters := Filters("", "all", "all", "all")

  predicate MatchesSearch(r: Row, query: string) {
    query == ""
    || IncludesIgnoringCase(r.candidate.fullName, query)
    || IncludesIgnoringCase(r.position.title, query)
    || IncludesIgnoringCase(r.position.company, query)
  }

  predicate MatchesStatus(r: Row, status: string) {
    status == "all" || SameIgnoringCase(r.referral.status, status)
  }

  predicate MatchesCompany(r: Row, company: string) {
    company == "all" || SameIgnoringCase(r.position.company, company)
  }

  predicate MatchesDate(r: Row, date: string, cutoffs: DateCutoffs) {
    if date == "30days" then r.referral.referralDate >= cutoffs.thirtyDaysAgo
    else if date == "90days" then r.referral.referralDate >= cutoffs.ninetyDaysAgo
    else if date == "year" then r.referral.referralDate >= cutoffs.startOfYear
    else true
  }

  predicate Keeps(f: Filters, cutoffs: DateCutoffs, r: Row) {
    MatchesSearch(r, f.search) && MatchesStatus(r, f.status)
    && MatchesCompany(r, f.company) && MatchesDate(r, f.date, cutoffs)
  }

  /** The rows that pass every filter, in their original order. */
  function FilteredReferrals(rows: seq<Row>, f: Filters, cutoffs: DateCutoffs): (r: seq<Row>)
    ensures forall i :: 0 <= i < |r| ==> r[i] in rows && Keeps(f, cutoffs, r[i])
    ensures forall i :: 0 <= i < |rows| && Keeps(f, cutoffs, rows[i]) ==> rows[i] in r
    ensures IsSubsequence(r, rows)
  {
    Filter(rows, r => Keeps(f, cutoffs, r))
  }

  /** Only the three known date ranges restrict anything, and a wider range keeps every row a
      narrower one keeps. */
  lemma DateRanges(r: Row, date: string, cutoffs: DateCutoffs)
    requires cutoffs.ninetyDaysAgo <= cutoffs.thirtyDaysAgo
    ensures date != "30days" && date != "90days" && date != "year" ==> MatchesDate(r, date, cutoffs)
    ensures MatchesDate(r, "30days", cutoffs) ==> MatchesDate(r, "90days", cutoffs)
  {
  }

  /** With nothing typed and every filter on "all", every row is listed, whatever the cut-offs. */
  lemma NoFiltersKeepAll(rows: seq<Row>, cutoffs: DateCutoffs)
    ensures FilteredReferrals(rows, NoFilters, cutoffs) == rows
  {
    assert forall i :: 0 <= i < |rows| ==> Keeps(NoFilters, cutoffs, rows[i]);
  }

  // --- Totals

  predicate IsHired(r: Row) {
    r.referral.status == "Hired"
  }

  /** `referrals.filter(r => r.status === "Hired").length`. */
  function SuccessfulReferrals(rows: seq<Row>): (n: nat)
    ensures n <= |rows|
    ensures n == 0 <==> forall i :: 0 <= i < |rows| ==> !IsHired(rows[i])
    ensures n == |rows| <==> forall i :: 0 <= i < |rows| ==> IsHired(rows[i])
  {
    var hired := Filter(rows, IsHired);
    if exists i :: 0 <= i < |rows| && !IsHired(rows[i]) then
      FilterDropsFailing(rows, IsHired);
      |hired|
    else
      |hired|
  }

  /** `referrals.filter(r => r.status === "Hired" && r.feeEarned).reduce((s, r) => s + (r.feeEarned || 0), 0)`. */
  function TotalFeesEarned(rows: seq<Row>): int {
    Storage.SumFees(Filter(Referrals(rows), Storage.PaidHire))
  }

  /** The page's fee total is the store's fee rule applied to the same referrals. */
  lemma TotalFeesIsFeeTotal(rows: seq<Row>)
    ensures TotalFeesEarned(rows) == Storage.FeeTotal(Referrals(rows))
  {
    Storage.FeeTotalIsFilterReduce(Referrals(rows));
  }

  /** Shown for the store's referrals, the page's fee total is the dashboard's `feesEarned`. */
  lemma SameTotalAsDashboard(store: Storage.MemStorage, rows: seq<Row>)
    requires store.Valid()
    requires Referrals(rows) == store.ReferralList()
    ensures TotalFeesEarned(rows) == store.GetDashboardStats().feesEarned
  {
    TotalFeesIsFeeTotal(rows);
  }

  /** Without a Hired referral no fee is counted, whatever fees the others carry. */
  lemma NoHireNoFees(rows: seq<Row>)
    requires SuccessfulReferrals(rows) == 0
    ensures TotalFeesEarned(rows) == 0
  {
    assert forall i :: 0 <= i < |rows| ==> !IsHired(rows[i]);
    TotalFeesIsFeeTotal(rows);
    FeeTotalOfUnhired(Referrals(rows));
  }

  lemma {:induction false} FeeTotalOfUnhired(rs: seq<Referral>)
    requires forall i :: 0 <= i < |rs| ==> rs[i].status != "Hired"
    ensures Storage.FeeTotal(rs) == 0
  {
    if rs != [] {
      FeeTotalOfUnhired(rs[1..]);
    }
  }

  function CompanyOf(r: Row): string {
    r.position.company
  }

  /** `Array.from(new Set(referrals.map(r => r.position.company)))`: each company of a row, once,
      in order of first appearance, and nothing else. */
  function Companies(rows: seq<Row>): (r: seq<string>)
    ensures NoDuplicates(r)
    ensures forall i :: 0 <= i < |rows| ==> rows[i].position.company in r
    ensures forall k :: 0 <= k < |r| ==> r[k] in Mapped(rows, CompanyOf)
    ensures forall k, l :: 0 <= k < l < |r| ==>
      IndexOf(Mapped(rows, CompanyOf), r[k]) < IndexOf(Mapped(rows, CompanyOf), r[l])
  {
    var all := Mapped(rows, CompanyOf);
    Dedupe(all)
  }
}
