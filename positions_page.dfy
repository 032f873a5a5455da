/** The list derivations of the positions page (client/src/pages/positions.tsx): the search and
    filter predicate and the company and location lists offered as filters. */
module PositionsPage {
  import opened Seqs
  import opened Text
  import opened Schema

  datatype Filters = Filters(search: string, status: string, company: string, location: string)

  const NoFilters := Filters("", "all", "all", "all")

  /** The query occurs, ignoring case, in the title, the company or the location. */
  predicate MatchesSearch(p: Position, query: string) {
    query == ""
    || IncludesIgnoringCase(p.title, query)
    || IncludesIgnoringCase(p.company, query)
    || IncludesIgnoringCase(p.location, query)
  }

  predicate MatchesStatus(p: Position, status: string) {
    status == "all" || SameIgnoringCase(p.status, status)
  }

  predicate MatchesCompany(p: Position, company: string) {
    company == "all" || SameIgnoringCase(p.company, company)
  }

  predicate MatchesLocation(p: Position, location: string) {
    location == "all" || SameIgnoringCase(p.location, location)
  }

  predicate Keeps(f: Filters, p: Position) {
    MatchesSearch(p, f.search) && MatchesStatus(p, f.status)
    && MatchesCompany(p, f.company) && MatchesLocation(p, f.location)
  }

  /** The positions that pass every filter, in their original order. */
  function FilteredPositions(ps: seq<Position>, f: Filters): (r: seq<Position>)
    ensures forall i :: 0 <= i < |r| ==> r[i] in ps && Keeps(f, r[i])
    ensures forall i :: 0 <= i < |ps| && Keeps(f, ps[i]) ==> ps[i] in r
    ensures IsSubsequence(r, ps)
  {
    Filter(ps, p => Keeps(f, p))
  }

  /** With nothing typed and every filter on "all", every position is listed. */
  lemma NoFiltersKeepAll(ps: seq<Position>)
    ensures FilteredPositions(ps, NoFilters) == ps
  {
    assert forall i :: 0 <= i < |ps| ==> Keeps(NoFilters, ps[i]);
  }

  /** Picking a company from the offered list keeps exactly the positions of that company, up to case. */
  lemma CompanyFilterSelects(ps: seq<Position>, company: string, p: Position)
    requires company != "all" && p in ps
    ensures p in FilteredPositions(ps, Filters("", "all", company, "all")) <==> SameIgnoringCase(p.company, company)
  {
    var r := FilteredPositions(ps, Filters("", "all", company, "all"));
    if p in r {
      var k :| 0 <= k < |r| && r[k] == p;
    }
    var i :| 0 <= i < |ps| && ps[i] == p;
  }

  function CompanyOf(p: Position): string {
    p.company
  }

  function LocationOf(p: Position): string {
    p.location
  }

  /** `Array.from(new Set(positions.map(p => p.company)))`: each company once, in order of first
      appearance, and nothing else. */
  function Companies(ps: seq<Position>): (r: seq<string>)
    ensures NoDuplicates(r)
    ensures forall i :: 0 <= i < |ps| ==> ps[i].company in r
    ensures forall k :: 0 <= k < |r| ==> r[k] in Mapped(ps, CompanyOf)
    ensures forall k, l :: 0 <= k < l < |r| ==>
      IndexOf(Mapped(ps, CompanyOf), r[k]) < IndexOf(Mapped(ps, CompanyOf), r[l])
  {
    Dedupe(Mapped(ps, CompanyOf))
  }

  /** `Array.from(new Set(positions.map(p => p.location)))`: each location once, in order of first
      appearance, and nothing else. */
  function Locations(ps: seq<Position>): (r: seq<string>)
    ensures NoDuplicates(r)
    ensures forall i :: 0 <= i < |ps| ==> ps[i].location in r
    ensures forall k :: 0 <= k < |r| ==> r[k] in Mapped(ps, LocationOf)
    ensures forall k, l :: 0 <= k < l < |r| ==>
      IndexOf(Mapped(ps, LocationOf), r[k]) < IndexOf(Mapped(ps, LocationOf), r[l])
  {
    Dedupe(Mapped(ps, LocationOf))
  }
}
